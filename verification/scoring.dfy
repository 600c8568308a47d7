/** The field-specific confidence heuristic `_score` of the text strategy, with its fixed regular
    expressions written out as character predicates. */
module Scoring {
  import opened Strings
  import opened Fields

  predicate IsPolicyChar(c: char) { 'A' <= c <= 'Z' || IsDigit(c) || c == '-' || c == '/' }

  /** `[A-Z0-9\-/]{6,}` as a full match (case-sensitive: `_score` passes no flags). */
  predicate PolicyShaped(v: string) {
    |v| >= 6 && forall i :: 0 <= i < |v| ==> IsPolicyChar(v[i])
  }

  predicate IsDateSep(c: char) { c == '-' || c == '/' || c == '.' }

  /** Between `lo` and `hi` digits. */
  predicate DigitRun(s: string, lo: nat, hi: nat) {
    lo <= |s| <= hi && forall i :: 0 <= i < |s| ==> IsDigit(s[i])
  }

  /** `v` splits at positions `a < b` into three digit runs of the given lengths around two separators. */
  predicate DateSplit(v: string, a: nat, b: nat, lo1: nat, hi1: nat, lo2: nat, hi2: nat, lo3: nat, hi3: nat)
    requires a < b < |v|
  {
    && DigitRun(v[..a], lo1, hi1) && IsDateSep(v[a])
    && DigitRun(v[a + 1..b], lo2, hi2) && IsDateSep(v[b])
    && DigitRun(v[b + 1..], lo3, hi3)
  }

  /** `\d{4}[-/.]\d{1,2}[-/.]\d{1,2}` or `\d{1,2}[-/.]\d{1,2}[-/.]\d{2,4}` as a full match. */
  predicate DateShaped(v: string) {
    || (exists a, b | 0 <= a < b < |v| :: DateSplit(v, a, b, 4, 4, 1, 2, 1, 2))
    || (exists a, b | 0 <= a < b < |v| :: DateSplit(v, a, b, 1, 2, 1, 2, 2, 4))
  }

  predicate IsCurrency(c: char) { c == '$' || c == '\U{20AC}' || c == '\U{00A3}' }

  predicate IsAmountChar(c: char) { IsDigit(c) || c == ',' || c == '.' }

  /** `[$€£]?\s?[\d,.]+(\.\d{2})?` as a full match. The optional cents group adds nothing, since `.` and
      digits already belong to `[\d,.]`, and the optional prefixes cannot be skipped when present, since
      neither a currency sign nor whitespace belongs to `[\d,.]`. */
  predicate AmountShaped(v: string) {
    var a := if |v| > 0 && IsCurrency(v[0]) then v[1..] else v;
    var b := if |a| > 0 && IsSpace(a[0]) then a[1..] else a;
    |b| > 0 && forall i :: 0 <= i < |b| ==> IsAmountChar(b[i])
  }

  /** At least two words, the first two at least two characters long. */
  predicate NameShaped(v: string) {
    var ws := Words(v);
    |ws| >= 2 && |ws[0]| >= 2 && |ws[1]| >= 2
  }

  /** The street-type keywords, lower-cased. */
  const StreetWords: seq<string> := ["st", "street", "ave", "avenue", "rd", "road", "blvd", "lane", "ln", "drive", "dr", "ct", "court"]

  /** Keyword `w` occurs at position `i` of `v`, ignoring case, followed by a word boundary. */
  predicate StreetWordAt(v: string, i: nat, w: string) {
    && i + |w| <= |v|
    && Lower(v[i..i + |w|]) == w
    && (i + |w| == |v| || !IsWordChar(v[i + |w|]))
  }

  /** `re.search(r"(St|Street|…|Court)\b", v, re.IGNORECASE)`: the alternation has no leading boundary,
      so a keyword may end a longer word ("1st"). Every keyword ends in a letter, so the trailing `\b`
      holds exactly when the next character is not a word character or the text ends. */
  predicate HasStreetWord(v: string) {
    exists i, w | 0 <= i <= |v| && w in StreetWords :: StreetWordAt(v, i, w)
  }

  predicate HasDigit(v: string) {
    exists i | 0 <= i < |v| :: IsDigit(v[i])
  }

  /** The scores `_score` can return. */
  predicate IsScoreConstant(r: real) {
    r == 0.0 || r == 0.4 || r == 0.5 || r == 0.6 || r == 0.75 || r == 0.8 || r == 0.85 || r == 0.9
  }

  /** `_score(field, value)`: 0 for a blank value, otherwise a fixed per-field constant that is higher when
      the stripped value has the shape expected of that field. */
  function Score(field: string, value: string): (r: real)
    ensures r == 0.0 <==> IsBlank(value)
    ensures !IsBlank(value) ==> 0.4 <= r <= 0.9
    ensures IsScoreConstant(r)
    ensures field != Agent && field != ClaimType && field != FormType && !IsBlank(value) ==> r >= 0.5
  {
    var v := Strip(value);
    if v == [] then 0.0
    else if field == PolicyNumber then (if PolicyShaped(v) then 0.9 else 0.6)
    else if field == DateOfIncident || field == SubmissionDate then (if DateShaped(v) then 0.85 else 0.5)
    else if field == ClaimAmount then (if AmountShaped(v) then 0.85 else 0.5)
    else if field == CustomerName then (if NameShaped(v) then 0.8 else 0.5)
    else if field == Address then (if HasDigit(v) && HasStreetWord(v) then 0.75 else 0.5)
    else if field == Agent || field == ClaimType || field == FormType then (if |v| >= 3 then 0.6 else 0.4)
    else 0.5
  }

  /** The score of each field as a function of the stripped value's shape: 0 for a blank value;
      otherwise the field's high constant exactly when the value has the field's shape, and its low
      constant when it does not; 0.5 for a field `_score` does not know. */
  lemma ScoreByField(field: string, value: string)
    ensures var v := Strip(value); var r := Score(field, value);
      && (IsBlank(value) ==> r == 0.0)
      && (!IsBlank(value) ==>
        && (field == PolicyNumber ==> (r == 0.9 <==> PolicyShaped(v)) && (r == 0.9 || r == 0.6))
        && (field == DateOfIncident || field == SubmissionDate ==> (r == 0.85 <==> DateShaped(v)) && (r == 0.85 || r == 0.5))
        && (field == ClaimAmount ==> (r == 0.85 <==> AmountShaped(v)) && (r == 0.85 || r == 0.5))
        && (field == CustomerName ==> (r == 0.8 <==> NameShaped(v)) && (r == 0.8 || r == 0.5))
        && (field == Address ==> (r == 0.75 <==> HasDigit(v) && HasStreetWord(v)) && (r == 0.75 || r == 0.5))
        && (field == Agent || field == ClaimType || field == FormType ==> (r == 0.6 <==> |v| >= 3) && (r == 0.6 || r == 0.4))
        && (field !in FieldNames ==> r == 0.5))
  {
  }

  /** The unit test's policy number has the policy shape. */
  lemma PolicyExampleShaped(v: string)
    requires v == "ABC-123456"
    ensures PolicyShaped(v)
  {
    forall i | 0 <= i < |v| ensures IsPolicyChar(v[i]) {
      assert v[i] in "ABC-123456";
    }
  }

  /** The unit test's policy number scores 0.9. */
  lemma ScorePolicyExample(v: string)
    requires v == "ABC-123456"
    ensures Score(PolicyNumber, v) == 0.9
  {
    StripUnchanged(v);
    PolicyExampleShaped(v);
  }

  /** The unit test's amount has the amount shape. */
  lemma AmountExampleShaped()
    ensures AmountShaped("$123.00")
  {
    var v := "$123.00";
    assert IsCurrency(v[0]);
    assert v[1..] == "123.00";
    var b := "123.00";
    assert !IsSpace(b[0]);
    assert forall i :: 0 <= i < |b| ==> IsAmountChar(b[i]);
  }

  /** The unit test's amount scores 0.85. */
  lemma ScoreAmountExample(v: string)
    requires v == "$123.00"
    ensures Score(ClaimAmount, v) == 0.85
  {
    StripUnchanged(v);
    AmountExampleShaped();
    assert ClaimAmount != PolicyNumber && ClaimAmount != DateOfIncident && ClaimAmount != SubmissionDate;
  }

  /** ASCII letters are not whitespace. */
  lemma LettersNotSpace(w: string)
    requires forall i :: 0 <= i < |w| ==> IsAsciiLetter(w[i])
    ensures forall i :: 0 <= i < |w| ==> !IsSpace(w[i])
  {
  }

  /** A value made of two space-free words around one space splits into those words. */
  lemma {:induction false} WordsOfTwo(w1: string, w2: string)
    requires |w1| > 0 && |w2| > 0
    requires forall i :: 0 <= i < |w1| ==> !IsSpace(w1[i])
    requires forall i :: 0 <= i < |w2| ==> !IsSpace(w2[i])
    ensures Words(w1 + " " + w2) == [w1, w2]
  {
    var s := w1 + " " + w2;
    LeadingCountExact(s, IsSpace, 0);
    assert s[0..] == s;
    LeadingCountExact(s, NotSpace, |w1|);
    assert s[..|w1|] == w1;
    var t := s[|w1|..];
    assert t == " " + w2;
    LeadingCountExact(t, IsSpace, 1);
    assert t[1..] == w2;
    LeadingCountExact(w2, IsSpace, 0);
    assert w2[0..] == w2;
    LeadingCountExact(w2, NotSpace, |w2|);
    assert w2[..|w2|] == w2 && w2[|w2|..] == [];
    assert Words(w2) == [w2];
    assert Words(t) == [w2];
  }

  /** A non-empty value without whitespace is one word. */
  lemma WordsOfOne(w: string)
    requires |w| > 0 && forall i :: 0 <= i < |w| ==> !IsSpace(w[i])
    ensures Words(w) == [w]
  {
    LeadingCountExact(w, IsSpace, 0);
    assert w[0..] == w;
    LeadingCountExact(w, NotSpace, |w|);
    assert w[..|w|] == w && w[|w|..] == [];
  }

  /** The unit test's customer name splits into its two words. */
  lemma NameExampleWords(v: string, w1: string, w2: string)
    requires v == "Jane Doe" && w1 == "Jane" && w2 == "Doe"
    ensures Words(v) == [w1, w2]
  {
    LettersNotSpace(w1);
    LettersNotSpace(w2);
    WordsOfTwo(w1, w2);
    assert w1 + " " + w2 == v;
  }

  /** The unit test's customer name has the name shape. */
  lemma NameExampleShaped(v: string)
    requires v == "Jane Doe"
    ensures NameShaped(v)
  {
    NameExampleWords(v, "Jane", "Doe");
  }

  /** The unit test's customer name scores 0.8. */
  lemma ScoreNameExample(v: string)
    requires v == "Jane Doe"
    ensures Score(CustomerName, v) == 0.8
  {
    StripUnchanged(v);
    NameExampleShaped(v);
    assert CustomerName != PolicyNumber && CustomerName != DateOfIncident && CustomerName != SubmissionDate && CustomerName != ClaimAmount;
  }
}
