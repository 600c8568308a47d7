/** The line-based key/value scanner `_kv_scan`: label keywords on a line, the value after a separator on
    the same line or on the next non-blank line, and the best candidate per field. */
module LabelScan {
  import opened Wrappers
  import opened Strings
  import opened Fields
  import opened Scoring
  import opened Selection

  /** `label_keywords`: per field, lower-case keywords looked for as substrings of a lower-cased line. */
  const LabelKeywords: map<string, seq<string>> := map[
    CustomerName := ["insured", "insured name", "name of insured", "customer name", "policy holder", "name"],
    Address := ["address"],
    PolicyNumber := ["policy no", "policy number", "policy #", "policy"],
    ClaimType := ["claim type", "type of claim"],
    DateOfIncident := ["date of incident", "loss date", "date of loss"],
    ClaimAmount := ["claim amount", "amount claimed", "total claim", "amount"],
    Agent := ["agent", "broker", "branch", "producer"],
    SubmissionDate := ["submission date", "date submitted", "issue date", "submission"],
    FormType := ["axa xl", "form", "policy", "customer", "claim"]
  ]

  /** The class `[:#\-]`. */
  predicate IsSeparator(c: char) { c == ':' || c == '#' || c == '-' }

  predicate NotSeparator(c: char) { !IsSeparator(c) }

  /** `is_label_line(s)`: `re.search(r"[:#\-]\s*$", s)`, or at most six words and a final ':'. */
  predicate IsLabelLine(s: string) {
    || (exists i | 0 <= i < |s| :: IsSeparator(s[i]) && IsBlank(s[i + 1..]))
    || (|Words(s)| <= 6 && |s| > 0 && s[|s| - 1] == ':')
  }

  /** On a stripped line both tests of `is_label_line` reduce to "the last character is a separator". */
  lemma StrippedLabelLine(s: string)
    requires Strip(s) == s
    ensures IsLabelLine(s) <==> |s| > 0 && IsSeparator(s[|s| - 1])
  {
    if |s| > 0 && IsSeparator(s[|s| - 1]) {
      assert IsBlank(s[|s|..]);
    }
    if i :| 0 <= i < |s| && IsSeparator(s[i]) && IsBlank(s[i + 1..]) {
      if i < |s| - 1 {
        assert s[i + 1..][|s| - 2 - i] == s[|s| - 1];
        assert !IsSpace(s[|s| - 1]);
      }
    }
  }

  /** `[ln.strip() for ln in text.splitlines()]`. */
  function Lines(text: string): (lines: seq<string>)
    ensures |lines| == |SplitLines(text)|
    ensures forall i :: 0 <= i < |lines| ==> lines[i] == Strip(SplitLines(text)[i])
  {
    var raw := SplitLines(text);
    seq(|raw|, i requires 0 <= i < |raw| => Strip(raw[i]))
  }

  /** The second element of `re.split(r"[:#\-]", s, maxsplit=1)`: the text after the first separator. */
  function AfterSeparator(s: string): (r: Option<string>)
    ensures r.None? <==> forall i :: 0 <= i < |s| ==> !IsSeparator(s[i])
    ensures r.Some? ==> exists i :: (0 <= i < |s| && IsSeparator(s[i]) && r.value == s[i + 1..] &&
      forall j :: 0 <= j < i ==> !IsSeparator(s[j]))
  {
    var i := LeadingCount(s, NotSeparator);
    if i == |s| then None else Some(s[i + 1..])
  }

  /** The first line at or after `j` that is not blank, or `|lines|` if there is none. */
  function NextNonBlank(lines: seq<string>, j: nat): (k: nat)
    requires j <= |lines|
    ensures j <= k <= |lines|
    ensures forall m :: j <= m < k ==> IsBlank(lines[m])
    ensures k < |lines| ==> !IsBlank(lines[k])
    decreases |lines| - j
  {
    if j == |lines| || !IsBlank(lines[j]) then j else NextNonBlank(lines, j + 1)
  }

  predicate IsCommaOrSpace(c: char) { c == ',' || c == ' ' }

  /** The `value` the scan takes from line `idx` for `field`, before its clean-up: the stripped text
      after the first separator if it is not blank; otherwise the next non-blank line unless that line
      looks like a label, with, for the address, the line after it appended when that one is non-empty
      and not label-like. */
  function RawValue(lines: seq<string>, idx: nat, field: string): (r: Option<string>)
    requires idx < |lines|
    ensures var after := AfterSeparator(lines[idx]);
      after.Some? && !IsBlank(after.value) ==> r == Some(Strip(after.value))
    ensures var after := AfterSeparator(lines[idx]);
      !(after.Some? && !IsBlank(after.value)) ==> r == NextLineValue(lines, NextNonBlank(lines, idx + 1), field)
  {
    var after := AfterSeparator(lines[idx]);
    if after.Some? && !IsBlank(after.value) then Some(Strip(after.value))
    else NextLineValue(lines, NextNonBlank(lines, idx + 1), field)
  }

  /** The value taken from line `j` when the label's own line has none: nothing when the text ends or
      line `j` looks like a label; otherwise line `j` stripped, and for the address the following line
      appended after ", " when it is non-empty and not label-like, with commas and spaces then stripped
      from both ends. */
  function NextLineValue(lines: seq<string>, j: nat, field: string): (r: Option<string>)
    requires j <= |lines|
    ensures j == |lines| || IsLabelLine(lines[j]) ==> r.None?
    ensures j < |lines| && !IsLabelLine(lines[j]) ==> r == Some(
      if field == Address && j + 1 < |lines| && lines[j + 1] != [] && !IsLabelLine(lines[j + 1])
      then TrimBy(Strip(lines[j]) + ", " + Strip(lines[j + 1]), IsCommaOrSpace)
      else Strip(lines[j]))
  {
    if j < |lines| && !IsLabelLine(lines[j]) then
      var v := Strip(lines[j]);
      if field == Address && j + 1 < |lines| && lines[j + 1] != [] && !IsLabelLine(lines[j + 1]) then
        Some(TrimBy(v + ", " + Strip(lines[j + 1]), IsCommaOrSpace))
      else Some(v)
    else None
  }

  /** A line mentions `field` when one of its keywords occurs in the lower-cased line. */
  predicate Mentions(line: string, field: string)
    requires field in LabelKeywords
  {
    exists k | k in LabelKeywords[field] :: Contains(Lower(line), k)
  }

  /** The confidence the scan gives a cleaned value: the field score plus 0.1, at most 1. */
  function KvConfidence(field: string, value: string): (c: real)
    ensures IsBlank(value) ==> c == 0.1
    ensures !IsBlank(value) ==> c == Score(field, value) + 0.1
    ensures !IsBlank(value) ==> 0.5 <= c <= 1.0
  {
    Min(1.0, Score(field, value) + 0.1)
  }

  /** What a candidate can look like: a non-empty value with confidence in [0.5, 1], or an empty one
      with confidence 0.1 (a value of inner whitespace only, which survives the truthiness test and is
      emptied by the clean-up after it). */
  predicate PlausibleHit(h: (string, real)) {
    && 0.1 <= h.1 <= 1.0
    && (h.0 == [] ==> h.1 == 0.1)
    && (h.0 != [] ==> 0.5 <= h.1)
  }

  /** The candidate line `idx` yields for `field`: its raw value, if truthy, with runs of two or more
      whitespace characters collapsed and stripped, and its confidence. */
  function Hit(lines: seq<string>, idx: nat, field: string): (r: Option<(string, real)>)
    requires idx < |lines| && field in LabelKeywords
    ensures r.Some? ==> PlausibleHit(r.value)
    ensures r.Some? <==> Mentions(lines[idx], field) && RawValue(lines, idx, field).Some? && RawValue(lines, idx, field).value != []
    ensures r.Some? ==> var cleaned := Strip(ReplaceRuns(RawValue(lines, idx, field).value, IsSpace, 2));
      r.value == (cleaned, KvConfidence(field, cleaned))
  {
    if !Mentions(lines[idx], field) then None
    else
      match RawValue(lines, idx, field)
      case None => None
      case Some(v) =>
        if v == [] then None
        else
          var cleaned := Strip(ReplaceRuns(v, IsSpace, 2));
          Some((cleaned, KvConfidence(field, cleaned)))
  }

  /** A line yields a candidate exactly when it mentions a keyword of the field and gives a truthy raw
      value. */
  lemma HitCases(lines: seq<string>, idx: nat, field: string)
    requires idx < |lines| && field in LabelKeywords
    ensures Hit(lines, idx, field).Some? <==>
      Mentions(lines[idx], field) && RawValue(lines, idx, field).Some? && RawValue(lines, idx, field).value != []
  {
  }

  /** What each line yields for `field`. */
  function LineHits(lines: seq<string>, field: string): (os: seq<Option<(string, real)>>)
    requires field in LabelKeywords
    ensures |os| == |lines|
    ensures forall m :: 0 <= m < |lines| ==> os[m] == Hit(lines, m, field)
  {
    seq(|lines|, m requires 0 <= m < |lines| => Hit(lines, m, field))
  }

  /** The lines before `n` that yield a candidate for `field`, in increasing order. */
  function HitLines(lines: seq<string>, field: string, n: nat): (ls: seq<nat>)
    requires n <= |lines| && field in LabelKeywords
    ensures IncreasingBelow(ls, n)
    ensures forall a :: 0 <= a < |ls| ==> Hit(lines, ls[a], field).Some?
    ensures forall m :: 0 <= m < n && Hit(lines, m, field).Some? ==> m in ls
  {
    var os := LineHits(lines, field)[..n];
    assert |os| == n;
    var ls := SomeIndices(os);
    forall a | 0 <= a < |ls| ensures Hit(lines, ls[a], field).Some? {
      assert os[ls[a]] == Hit(lines, ls[a], field);
    }
    forall m | 0 <= m < n && Hit(lines, m, field).Some? ensures m in ls {
      assert os[m] == Hit(lines, m, field);
    }
    ls
  }

  /** The candidates of the first `n` lines for `field`, in line order: the `a`-th candidate comes from
      the `a`-th line that yields one. */
  function HitsUpTo(lines: seq<string>, field: string, n: nat): (hs: seq<(string, real)>)
    requires n <= |lines| && field in LabelKeywords
    ensures |hs| == |HitLines(lines, field, n)| <= n
    ensures forall a :: 0 <= a < |hs| ==> Hit(lines, HitLines(lines, field, n)[a], field) == Some(hs[a])
    ensures forall a :: 0 <= a < |hs| ==> PlausibleHit(hs[a])
  {
    var os := LineHits(lines, field)[..n];
    var hs := Somes(os);
    assert forall a :: 0 <= a < |hs| ==> os[SomeIndices(os)[a]] == Hit(lines, SomeIndices(os)[a], field);
    IncreasingBound(SomeIndices(os), n);
    hs
  }

  /** Strictly increasing positions below `n` are at most `n` many. */
  lemma {:induction false} IncreasingBound(idx: seq<nat>, n: nat)
    requires IncreasingBelow(idx, n)
    ensures |idx| <= n
    decreases |idx|
  {
    if |idx| > 0 {
      var init := idx[..|idx| - 1];
      assert IncreasingBelow(init, idx[|idx| - 1]);
      IncreasingBound(init, idx[|idx| - 1]);
    }
  }

  /** The candidates are exactly what the first `n` lines yield. */
  lemma HitsUpToContents(lines: seq<string>, field: string, n: nat, x: (string, real))
    requires n <= |lines| && field in LabelKeywords
    ensures x in HitsUpTo(lines, field, n) <==> exists m :: 0 <= m < n && Hit(lines, m, field) == Some(x)
  {
    var os := LineHits(lines, field)[..n];
    SomesContents(os, x);
    if m :| 0 <= m < |os| && os[m] == Some(x) {
      assert Hit(lines, m, field) == Some(x);
    }
    if m :| 0 <= m < n && Hit(lines, m, field) == Some(x) {
      assert os[m] == Some(x);
    }
  }

  function HitConfidence(h: (string, real)): real { h.1 }

  /** The per-field state of the scan after all lines: the first candidate with the highest confidence.
      (`_kv_scan`'s `conf > (cur[1] or 0.0)` compares with a confidence that is never 0.) */
  function FieldBest(lines: seq<string>, field: string): (r: Option<(string, real)>)
    requires field in LabelKeywords
    ensures var hs := HitsUpTo(lines, field, |lines|);
      && (r.None? <==> |hs| == 0)
      && (r.Some? ==> exists i :: (0 <= i < |hs| && r.value == hs[i]
            && (forall j :: 0 <= j < |hs| ==> hs[j].1 <= hs[i].1)
            && (forall j :: 0 <= j < i ==> hs[j].1 < hs[i].1)))
  {
    var hs := HitsUpTo(lines, field, |lines|);
    if |hs| == 0 then None else Some(hs[FirstMax(hs, HitConfidence)])
  }

  /** The field's entry, when there is one, is a candidate no other candidate exceeds. */
  lemma FieldBestTop(lines: seq<string>, field: string)
    requires field in LabelKeywords
    ensures FieldBest(lines, field).None? <==> HitsUpTo(lines, field, |lines|) == []
    ensures FieldBest(lines, field).Some? ==>
      var hs := HitsUpTo(lines, field, |lines|);
      FieldBest(lines, field).value in hs && forall x :: x in hs ==> x.1 <= FieldBest(lines, field).value.1
  {
    var hs := HitsUpTo(lines, field, |lines|);
    var r := FieldBest(lines, field);
    if r.Some? {
      var i :| 0 <= i < |hs| && r.value == hs[i] && (forall j :: 0 <= j < |hs| ==> hs[j].1 <= hs[i].1);
      forall x | x in hs ensures x.1 <= r.value.1 {
        var j :| 0 <= j < |hs| && hs[j] == x;
      }
    }
  }

  /** `_kv_scan(text)`: the best candidate of each field that has one. Fields never influence each
      other in the nested loop of `_kv_scan`, so the scan is computed field by field. */
  function KvScan(text: string): (r: map<string, (string, real)>)
    ensures r.Keys <= LabelKeywords.Keys
    ensures forall f :: f in r ==> PlausibleHit(r[f])
    ensures forall f :: f in LabelKeywords ==> (f in r <==> |HitsUpTo(Lines(text), f, |Lines(text)|)| > 0)
    ensures forall f :: f in r ==> Some(r[f]) == FieldBest(Lines(text), f)
  {
    var lines := Lines(text);
    map f | f in LabelKeywords.Keys && FieldBest(lines, f).Some? :: FieldBest(lines, f).value
  }

  /** A concrete input on which the scan records an empty value: the line after the address label is
      ",\t," and the next one ",", so the joined value ",\t,, ," loses its commas and spaces to `strip(", ")`,
      leaves a lone tab that passes the truthiness test, and is emptied by the clean-up. */
  lemma EmptyValueCandidate()
    ensures RawValue(["Address", ",\t,", ","], 0, Address) == Some("\t")
  {
    var lines := ["Address", ",\t,", ","];
    NoSeparatorInLabel();
    assert !IsBlank(lines[1]) by { assert !IsSpace(lines[1][0]); }
    assert NextNonBlank(lines, 1) == 1;
    CommaLinesNotLabels();
    StripUnchanged(lines[1]);
    StripUnchanged(lines[2]);
    JoinedAddressTrimmed();
  }

  /** On that input the address candidate of the first line is an empty value with confidence 0.1. */
  lemma EmptyValueHit(lines: seq<string>, field: string)
    requires lines == ["Address", ",\t,", ","] && field == Address
    ensures Hit(lines, 0, field) == Some(("", 0.1))
  {
    EmptyValueCandidate();
    var v := RawValue(lines, 0, field).value;
    assert v == "\t";
    AddressLineMentions(lines[0], field);
    TabCleansToEmpty(v);
    HitOfMentioned(lines, 0, field, v, []);
    assert KvConfidence(field, []) == 0.1;
  }

  /** A lone tab is emptied by the clean-up. */
  lemma TabCleansToEmpty(v: string)
    requires v == "\t"
    ensures Strip(ReplaceRuns(v, IsSpace, 2)) == []
  {
    LeadingCountExact(v, IsSpace, 1);
    assert ReplaceRuns(v, IsSpace, 2) == v;
    assert IsBlank(v);
  }

  /** A line that mentions the field and yields a truthy raw value gives the cleaned value as its candidate. */
  lemma HitOfMentioned(lines: seq<string>, idx: nat, field: string, v: string, cleaned: string)
    requires idx < |lines| && field in LabelKeywords && Mentions(lines[idx], field)
    requires RawValue(lines, idx, field) == Some(v) && v != [] && Strip(ReplaceRuns(v, IsSpace, 2)) == cleaned
    ensures Hit(lines, idx, field) == Some((cleaned, KvConfidence(field, cleaned)))
  {
  }

  lemma AddressLineMentions(line: string, field: string)
    requires line == "Address" && field == Address
    ensures Mentions(line, field)
  {
    assert Lower(line) == "address" by {
      assert forall i :: 0 <= i < |line| ==> Lower(line)[i] == "address"[i];
    }
    assert "address" <= Lower(line);
    assert "address" in LabelKeywords[field];
  }

  lemma NoSeparatorInLabel()
    ensures AfterSeparator("Address").None?
  {
    var s := "Address";
    assert forall i :: 0 <= i < |s| ==> !IsSeparator(s[i]);
  }

  lemma CommaLinesNotLabels()
    ensures !IsLabelLine(",\t,") && !IsLabelLine(",")
  {
    StripUnchanged(",\t,");
    StrippedLabelLine(",\t,");
    StripUnchanged(",");
    StrippedLabelLine(",");
  }

  lemma JoinedAddressTrimmed()
    ensures TrimBy(",\t," + ", " + ",", IsCommaOrSpace) == "\t"
  {
    var joined := ",\t," + ", " + ",";
    assert joined == [',', '\t', ',', ',', ' ', ','];
    LeadingCountExact(joined, IsCommaOrSpace, 1);
    var t := joined[1..];
    assert t == ['\t', ',', ',', ' ', ','];
    TrailingCountExact(t, IsCommaOrSpace, 4);
  }
}
