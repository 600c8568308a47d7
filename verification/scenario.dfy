/** A three-line sample document: a policy number, a claim amount and a customer name, each after its
    label. Whatever the regular-expression engine answers, the key/value scan alone decides these three
    fields. */
module Scenario {
  import opened Wrappers
  import opened Strings
  import opened Fields
  import opened Patterns
  import opened Scoring
  import opened LabelScan
  import opened TextStrategy

  const PolicyLine: string := "Policy Number: ABC-123456"
  const AmountLine: string := "Claim Amount: $1,234.56"
  const NameLine: string := "Customer Name: Jane Doe"

  const SampleText: string := PolicyLine + "\n" + AmountLine + "\n" + NameLine

  const PolicyValue: string := "ABC-123456"
  const AmountValue: string := "$1,234.56"
  const NameValue: string := "Jane Doe"

  /** Printable ASCII holds no line boundary. */
  lemma PrintableNoBreak(s: string)
    requires forall i :: 0 <= i < |s| ==> ' ' <= s[i] <= '~'
    ensures forall i :: 0 <= i < |s| ==> !IsLineBreak(s[i])
  {
  }

  /** Printable ASCII that neither starts nor ends with a space is its own strip. */
  lemma PrintableStrip(v: string)
    requires forall i :: 0 <= i < |v| ==> ' ' <= v[i] <= '~'
    requires |v| > 0 && v[0] != ' ' && v[|v| - 1] != ' '
    ensures Strip(v) == v
  {
    StripUnchanged(v);
  }

  lemma SampleLinesPrintable(a: string, b: string, c: string)
    requires a == PolicyLine && b == AmountLine && c == NameLine
    ensures forall i :: 0 <= i < |a| ==> ' ' <= a[i] <= '~'
    ensures forall i :: 0 <= i < |b| ==> ' ' <= b[i] <= '~'
    ensures forall i :: 0 <= i < |c| ==> ' ' <= c[i] <= '~'
  {
    forall i | 0 <= i < |a| ensures ' ' <= a[i] <= '~' {
      assert a[i] in PolicyLine;
    }
    forall i | 0 <= i < |b| ensures ' ' <= b[i] <= '~' {
      assert b[i] in AmountLine;
    }
    forall i | 0 <= i < |c| ensures ' ' <= c[i] <= '~' {
      assert c[i] in NameLine;
    }
  }

  /** Three lines joined by "\n". */
  lemma JoinThree(a: string, b: string, c: string)
    ensures Join([a, b, c], "\n") == a + "\n" + b + "\n" + c
  {
    var ls := [a, b, c];
    assert ls[1..] == [b, c];
    assert [b, c][1..] == [c];
    assert Join([b, c], "\n") == b + "\n" + c;
    assert Join(ls, "\n") == a + "\n" + (b + "\n" + c);
    assert a + "\n" + (b + "\n" + c) == a + "\n" + b + "\n" + c;
  }

  /** Three lines without line boundaries, the last one non-empty, split back apart. */
  lemma SplitThree(text: string, a: string, b: string, c: string)
    requires text == a + "\n" + b + "\n" + c
    requires forall i :: 0 <= i < |a| ==> !IsLineBreak(a[i])
    requires forall i :: 0 <= i < |b| ==> !IsLineBreak(b[i])
    requires forall i :: 0 <= i < |c| ==> !IsLineBreak(c[i])
    requires c != []
    ensures SplitLines(text) == [a, b, c]
  {
    var ls := [a, b, c];
    forall k | 0 <= k < |ls| ensures forall i :: 0 <= i < |ls[k]| ==> !IsLineBreak(ls[k][i]) {
      if k == 0 { assert ls[k] == a; } else if k == 1 { assert ls[k] == b; } else { assert ls[k] == c; }
    }
    JoinThree(a, b, c);
    SplitLinesOfJoin(ls);
  }

  /** When the pieces of `splitlines` are already stripped, they are the scan's lines. */
  lemma LinesOfStripped(text: string, a: string, b: string, c: string)
    requires SplitLines(text) == [a, b, c]
    requires Strip(a) == a && Strip(b) == b && Strip(c) == c
    ensures Lines(text) == [a, b, c]
  {
    var l := Lines(text);
    var raw := SplitLines(text);
    assert raw[0] == a && raw[1] == b && raw[2] == c;
    assert l[0] == a by { assert l[0] == Strip(raw[0]); }
    assert l[1] == b by { assert l[1] == Strip(raw[1]); }
    assert l[2] == c by { assert l[2] == Strip(raw[2]); }
    ThreeEntries(l, a, b, c);
  }

  /** A list of length three is the list of its three entries. */
  lemma ThreeEntries<T>(l: seq<T>, a: T, b: T, c: T)
    requires |l| == 3 && l[0] == a && l[1] == b && l[2] == c
    ensures l == [a, b, c]
  {
  }

  /** The scan sees the three lines as they are. */
  lemma SampleLines(text: string, a: string, b: string, c: string)
    requires a == PolicyLine && b == AmountLine && c == NameLine
    requires text == a + "\n" + b + "\n" + c
    ensures Lines(text) == [a, b, c]
  {
    SampleLinesPrintable(a, b, c);
    PrintableNoBreak(a);
    PrintableNoBreak(b);
    PrintableNoBreak(c);
    SplitThree(text, a, b, c);
    PrintableStrip(a);
    PrintableStrip(b);
    PrintableStrip(c);
    LinesOfStripped(text, a, b, c);
  }

  /** A line whose first separator is at `sep`, followed by one space and a value without surrounding
      whitespace, yields that value, whatever the field. */
  lemma ValueAfterLabel(lines: seq<string>, idx: nat, field: string, sep: nat, v: string)
    requires idx < |lines| && sep < |lines[idx]|
    requires forall j :: 0 <= j < sep ==> !IsSeparator(lines[idx][j])
    requires IsSeparator(lines[idx][sep])
    requires lines[idx][sep + 1..] == [' '] + v
    requires |v| > 0 && !IsSpace(v[0]) && !IsSpace(v[|v| - 1])
    ensures RawValue(lines, idx, field) == Some(v)
  {
    var l := lines[idx];
    LeadingCountExact(l, NotSeparator, sep);
    assert AfterSeparator(l) == Some([' '] + v);
    StripOfSpaced(v);
  }

  /** One leading space in front of a value without surrounding whitespace is stripped away. */
  lemma StripOfSpaced(v: string)
    requires |v| > 0 && !IsSpace(v[0]) && !IsSpace(v[|v| - 1])
    ensures Strip([' '] + v) == v
  {
    var s := [' '] + v;
    LeadingCountExact(s, IsSpace, 1);
    assert s[1..] == v;
    TrailingCountExact(v, IsSpace, 0);
  }

  /** A value with no two adjacent whitespace characters and no surrounding whitespace survives the
      scan's clean-up. */
  lemma CleanValue(v: string)
    requires |v| > 0 && !IsSpace(v[0]) && !IsSpace(v[|v| - 1])
    requires forall i :: 0 <= i < |v| - 1 ==> !(IsSpace(v[i]) && IsSpace(v[i + 1]))
    ensures Strip(ReplaceRuns(v, IsSpace, 2)) == v
  {
    ReplaceRunsKeeps(v, IsSpace, 2);
    StripUnchanged(v);
  }

  /** A line that mentions `field` and yields a clean value gives exactly that candidate; a line that
      yields a clean value gives no other. */
  lemma HitOfClean(lines: seq<string>, idx: nat, field: string, v: string)
    requires idx < |lines| && field in LabelKeywords
    requires RawValue(lines, idx, field) == Some(v) && v != []
    requires Strip(ReplaceRuns(v, IsSpace, 2)) == v
    ensures Hit(lines, idx, field) == None || Hit(lines, idx, field) == Some((v, KvConfidence(field, v)))
    ensures Mentions(lines[idx], field) ==> Hit(lines, idx, field) == Some((v, KvConfidence(field, v)))
  {
  }

  /** The first candidate of highest confidence is `target` when `target` is a candidate and every other
      candidate is less confident. */
  lemma BestIs(lines: seq<string>, field: string, target: (string, real))
    requires field in LabelKeywords
    requires exists m :: 0 <= m < |lines| && Hit(lines, m, field) == Some(target)
    requires forall m :: 0 <= m < |lines| && Hit(lines, m, field).Some? ==>
      Hit(lines, m, field).value == target || Hit(lines, m, field).value.1 < target.1
    ensures FieldBest(lines, field) == Some(target)
  {
    var hs := HitsUpTo(lines, field, |lines|);
    HitsUpToContents(lines, field, |lines|, target);
    forall x | x in hs ensures x == target || x.1 < target.1 {
      HitsUpToContents(lines, field, |lines|, x);
      var m :| 0 <= m < |lines| && Hit(lines, m, field) == Some(x);
      assert Hit(lines, m, field).value == x;
    }
    FieldBestTop(lines, field);
    UniqueTop(hs, FieldBest(lines, field).value, target);
  }

  /** In a list where every other element is strictly below `target`, a maximal element is `target`. */
  lemma UniqueTop(hs: seq<(string, real)>, top: (string, real), target: (string, real))
    requires target in hs && forall x :: x in hs ==> x == target || x.1 < target.1
    requires top in hs && forall x :: x in hs ==> x.1 <= top.1
    ensures top == target
  {
  }

  /** Every line yields a clean value; line `t` mentions `field` and its value is strictly the most
      confident: then it is the field's entry. */
  lemma BestOfValues(lines: seq<string>, field: string, vals: seq<string>, t: nat)
    requires |lines| == |vals| && t < |lines| && field in LabelKeywords
    requires forall m :: 0 <= m < |lines| ==> RawValue(lines, m, field) == Some(vals[m]) && vals[m] != []
    requires forall m :: 0 <= m < |lines| ==> Strip(ReplaceRuns(vals[m], IsSpace, 2)) == vals[m]
    requires Mentions(lines[t], field)
    requires forall m :: 0 <= m < |lines| && m != t ==> KvConfidence(field, vals[m]) < KvConfidence(field, vals[t])
    ensures FieldBest(lines, field) == Some((vals[t], KvConfidence(field, vals[t])))
  {
    var target := (vals[t], KvConfidence(field, vals[t]));
    forall m | 0 <= m < |lines| && Hit(lines, m, field).Some?
      ensures Hit(lines, m, field).value == target || Hit(lines, m, field).value.1 < target.1
    {
      HitOfClean(lines, m, field, vals[m]);
      if m != t {
        assert Hit(lines, m, field).value.1 == KvConfidence(field, vals[m]);
      }
    }
    HitOfClean(lines, t, field, vals[t]);
    assert Hit(lines, t, field) == Some(target);
    BestIs(lines, field, target);
  }

  lemma PolicyLineShape(l: string, v: string)
    requires l == PolicyLine && v == PolicyValue
    ensures 13 < |l| && (forall j :: 0 <= j < 13 ==> !IsSeparator(l[j])) && IsSeparator(l[13])
    ensures l[13 + 1..] == [' '] + v
    ensures |v| > 0 && !IsSpace(v[0]) && !IsSpace(v[|v| - 1])
    ensures forall i :: 0 <= i < |v| - 1 ==> !(IsSpace(v[i]) && IsSpace(v[i + 1]))
  {
    forall j | 0 <= j < 13 ensures !IsSeparator(l[j]) {
      assert l[j] in "Policy Number";
    }
    forall i | 0 <= i < |v| - 1 ensures !(IsSpace(v[i]) && IsSpace(v[i + 1])) {
      assert v[i + 1] in PolicyValue;
      assert v[i] == ' ' ==> v[i + 1] != ' ';
    }
  }

  lemma AmountLineShape(l: string, v: string)
    requires l == AmountLine && v == AmountValue
    ensures 12 < |l| && (forall j :: 0 <= j < 12 ==> !IsSeparator(l[j])) && IsSeparator(l[12])
    ensures l[12 + 1..] == [' '] + v
    ensures |v| > 0 && !IsSpace(v[0]) && !IsSpace(v[|v| - 1])
    ensures forall i :: 0 <= i < |v| - 1 ==> !(IsSpace(v[i]) && IsSpace(v[i + 1]))
  {
    forall j | 0 <= j < 12 ensures !IsSeparator(l[j]) {
      assert l[j] in "Claim Amount";
    }
    forall i | 0 <= i < |v| - 1 ensures !(IsSpace(v[i]) && IsSpace(v[i + 1])) {
      assert v[i + 1] in AmountValue;
      assert v[i] == ' ' ==> v[i + 1] != ' ';
    }
  }

  lemma NameLineShape(l: string, v: string)
    requires l == NameLine && v == NameValue
    ensures 13 < |l| && (forall j :: 0 <= j < 13 ==> !IsSeparator(l[j])) && IsSeparator(l[13])
    ensures l[13 + 1..] == [' '] + v
    ensures |v| > 0 && !IsSpace(v[0]) && !IsSpace(v[|v| - 1])
    ensures forall i :: 0 <= i < |v| - 1 ==> !(IsSpace(v[i]) && IsSpace(v[i + 1]))
  {
    forall j | 0 <= j < 13 ensures !IsSeparator(l[j]) {
      assert l[j] in "Customer Name";
    }
    forall i | 0 <= i < |v| - 1 ensures !(IsSpace(v[i]) && IsSpace(v[i + 1])) {
      assert v[i + 1] in NameValue;
      assert v[i] == ' ' ==> v[i + 1] != ' ';
    }
  }

  /** A keyword of `field` at the start of the lower-cased line is a mention. */
  lemma MentionsByPrefix(line: string, field: string, kw: string)
    requires field in LabelKeywords && kw in LabelKeywords[field]
    requires kw <= Lower(line)
    ensures Mentions(line, field)
  {
  }

  /** Lower-casing keeps prefixes: the lower-cased prefix starts the lower-cased line. */
  lemma LowerPrefix(l: string, p: string)
    requires p <= l
    ensures Lower(p) <= Lower(l)
  {
    assert forall i :: 0 <= i < |p| ==> Lower(p)[i] == LowerChar(l[i]);
  }

  lemma KeywordListed(field: string, kw: string)
    requires (field == PolicyNumber && kw == "policy") || (field == ClaimAmount && kw == "claim amount")
      || (field == CustomerName && kw == "customer name")
    ensures field in LabelKeywords && kw in LabelKeywords[field]
  {
  }

  /** The labels of the sample, lower-cased. */
  lemma LabelLower(p: string, q: string)
    requires || (p == "Policy" && q == "policy")
             || (p == "Claim Amount" && q == "claim amount")
             || (p == "Customer Name" && q == "customer name")
    ensures Lower(p) == q
  {
    assert forall i :: 0 <= i < |p| ==> LowerChar(p[i]) == q[i];
    LowerByChars(p, q);
  }

  /** A string whose characters lower-case one by one into `q` lower-cases into `q`. */
  lemma LowerByChars(p: string, q: string)
    requires |p| == |q| && forall i :: 0 <= i < |p| ==> LowerChar(p[i]) == q[i]
    ensures Lower(p) == q
  {
  }

  /** A line starting with a label whose lower case is a keyword of `f` mentions `f`. */
  lemma LabelMentions(l: string, p: string, f: string, kw: string)
    requires p <= l && Lower(p) == kw
    requires f in LabelKeywords && kw in LabelKeywords[f]
    ensures Mentions(l, f)
  {
    LowerPrefix(l, p);
    MentionsByPrefix(l, f, kw);
  }

  lemma PolicyLineMentions(l: string, f: string)
    requires l == PolicyLine && f == PolicyNumber
    ensures Mentions(l, f)
  {
    var p := "Policy";
    assert l[..|p|] == p;
    LabelLower(p, "policy");
    KeywordListed(f, "policy");
    LabelMentions(l, p, f, "policy");
  }

  lemma AmountLineMentions(l: string, f: string)
    requires l == AmountLine && f == ClaimAmount
    ensures Mentions(l, f)
  {
    var p := "Claim Amount";
    assert l[..|p|] == p;
    LabelLower(p, "claim amount");
    KeywordListed(f, "claim amount");
    LabelMentions(l, p, f, "claim amount");
  }

  lemma NameLineMentions(l: string, f: string)
    requires l == NameLine && f == CustomerName
    ensures Mentions(l, f)
  {
    var p := "Customer Name";
    assert l[..|p|] == p;
    LabelLower(p, "customer name");
    KeywordListed(f, "customer name");
    LabelMentions(l, p, f, "customer name");
  }

  /** The policy number and the amount contain no whitespace. */
  lemma SampleValuesSpaceFree(v: string)
    requires v == PolicyValue || v == AmountValue
    ensures |v| > 0 && forall i :: 0 <= i < |v| ==> !IsSpace(v[i])
  {
    if v == PolicyValue {
      forall i | 0 <= i < |v| ensures !IsSpace(v[i]) {
        assert v[i] in PolicyValue;
      }
    } else {
      forall i | 0 <= i < |v| ensures !IsSpace(v[i]) {
        assert v[i] in AmountValue;
      }
    }
  }

  lemma AmountValueShaped(v: string)
    requires v == AmountValue
    ensures AmountShaped(v)
  {
    assert IsCurrency(v[0]);
    var b := v[1..];
    assert b == "1,234.56";
    assert !IsSpace(b[0]);
    forall i | 0 <= i < |b| ensures IsAmountChar(b[i]) {
      assert b[i] in "1,234.56";
    }
  }

  lemma NotPolicyShaped(v: string)
    requires v == AmountValue || v == NameValue
    ensures !PolicyShaped(v)
  {
    if v == AmountValue {
      assert !IsPolicyChar(v[0]);
    } else {
      assert !IsPolicyChar(v[1]);
    }
  }

  lemma NotAmountShaped(v: string)
    requires v == PolicyValue || v == NameValue
    ensures !AmountShaped(v)
  {
    assert !IsCurrency(v[0]) && !IsSpace(v[0]) && !IsAmountChar(v[0]);
    if AmountShaped(v) {
      AmountShapedFirst(v);
    }
  }

  /** An amount starts with a currency sign, whitespace or an amount character. */
  lemma AmountShapedFirst(v: string)
    requires AmountShaped(v)
    ensures |v| > 0 && (IsCurrency(v[0]) || IsSpace(v[0]) || IsAmountChar(v[0]))
  {
    var a := if |v| > 0 && IsCurrency(v[0]) then v[1..] else v;
    var b := if |a| > 0 && IsSpace(a[0]) then a[1..] else a;
    assert IsAmountChar(b[0]);
  }

  lemma NotNameShaped(v: string)
    requires v == PolicyValue || v == AmountValue
    ensures !NameShaped(v)
  {
    SampleValuesSpaceFree(v);
    WordsOfOne(v);
  }

  /** The three sample values are their own strip. */
  lemma SampleValueStripped(v: string)
    requires v == PolicyValue || v == AmountValue || v == NameValue
    ensures Strip(v) == v
  {
    assert !IsSpace(v[0]) && !IsSpace(v[|v| - 1]);
    StripUnchanged(v);
  }

  /** How each of the three fields scores each of the three values: each field's own value scores
      highest. */
  lemma PolicyScores(p: string, a: string, n: string)
    requires p == PolicyValue && a == AmountValue && n == NameValue
    ensures Score(PolicyNumber, p) == 0.9 && Score(PolicyNumber, a) == 0.6 && Score(PolicyNumber, n) == 0.6
  {
    ScorePolicyExample(p);
    SampleValueStripped(a);
    SampleValueStripped(n);
    NotPolicyShaped(a);
    NotPolicyShaped(n);
  }

  lemma AmountScores(p: string, a: string, n: string)
    requires p == PolicyValue && a == AmountValue && n == NameValue
    ensures Score(ClaimAmount, a) == 0.85 && Score(ClaimAmount, p) == 0.5 && Score(ClaimAmount, n) == 0.5
  {
    SampleValueStripped(p);
    SampleValueStripped(a);
    SampleValueStripped(n);
    AmountValueShaped(a);
    NotAmountShaped(p);
    NotAmountShaped(n);
    assert ClaimAmount != PolicyNumber && ClaimAmount != DateOfIncident && ClaimAmount != SubmissionDate;
  }

  lemma NameScores(p: string, a: string, n: string)
    requires p == PolicyValue && a == AmountValue && n == NameValue
    ensures Score(CustomerName, n) == 0.8 && Score(CustomerName, p) == 0.5 && Score(CustomerName, a) == 0.5
  {
    ScoreNameExample(n);
    SampleValueStripped(p);
    SampleValueStripped(a);
    NotNameShaped(p);
    NotNameShaped(a);
    assert CustomerName != PolicyNumber && CustomerName != DateOfIncident && CustomerName != SubmissionDate
      && CustomerName != ClaimAmount;
  }

  /** Every sample line yields its own value, clean, whatever field is asked for. */
  lemma SampleRaw(lines: seq<string>, vals: seq<string>, field: string)
    requires lines == [PolicyLine, AmountLine, NameLine] && vals == [PolicyValue, AmountValue, NameValue]
    ensures forall m :: 0 <= m < |lines| ==> RawValue(lines, m, field) == Some(vals[m]) && vals[m] != []
    ensures forall m :: 0 <= m < |lines| ==> Strip(ReplaceRuns(vals[m], IsSpace, 2)) == vals[m]
  {
    forall m | 0 <= m < |lines|
      ensures RawValue(lines, m, field) == Some(vals[m]) && vals[m] != [] && Strip(ReplaceRuns(vals[m], IsSpace, 2)) == vals[m]
    {
      if m == 0 {
        PolicyRaw(lines, m, field, vals[m]);
      } else if m == 1 {
        AmountRaw(lines, m, field, vals[m]);
      } else {
        NameRaw(lines, m, field, vals[m]);
      }
    }
  }

  lemma PolicyRaw(lines: seq<string>, idx: nat, field: string, v: string)
    requires idx < |lines| && lines[idx] == PolicyLine && v == PolicyValue
    ensures RawValue(lines, idx, field) == Some(v) && v != [] && Strip(ReplaceRuns(v, IsSpace, 2)) == v
  {
    PolicyLineShape(lines[idx], v);
    ValueAfterLabel(lines, idx, field, 13, v);
    CleanValue(v);
  }

  lemma AmountRaw(lines: seq<string>, idx: nat, field: string, v: string)
    requires idx < |lines| && lines[idx] == AmountLine && v == AmountValue
    ensures RawValue(lines, idx, field) == Some(v) && v != [] && Strip(ReplaceRuns(v, IsSpace, 2)) == v
  {
    AmountLineShape(lines[idx], v);
    ValueAfterLabel(lines, idx, field, 12, v);
    CleanValue(v);
  }

  lemma NameRaw(lines: seq<string>, idx: nat, field: string, v: string)
    requires idx < |lines| && lines[idx] == NameLine && v == NameValue
    ensures RawValue(lines, idx, field) == Some(v) && v != [] && Strip(ReplaceRuns(v, IsSpace, 2)) == v
  {
    NameLineShape(lines[idx], v);
    ValueAfterLabel(lines, idx, field, 13, v);
    CleanValue(v);
  }

  /** Among three values, those other than the `t`-th score below `c` in the scan. */
  lemma OthersBelow(vals: seq<string>, f: string, t: nat, c: real)
    requires |vals| == 3 && t < 3
    requires t == 0 || KvConfidence(f, vals[0]) < c
    requires t == 1 || KvConfidence(f, vals[1]) < c
    requires t == 2 || KvConfidence(f, vals[2]) < c
    ensures forall m :: 0 <= m < |vals| && m != t ==> KvConfidence(f, vals[m]) < c
  {
  }

  /** As a policy number, the first value scores 1 in the scan and the others 0.7. */
  lemma PolicyConfidences(vals: seq<string>, f: string)
    requires f == PolicyNumber && vals == [PolicyValue, AmountValue, NameValue]
    ensures KvConfidence(f, vals[0]) == 1.0
    ensures forall m :: 0 <= m < |vals| && m != 0 ==> KvConfidence(f, vals[m]) < 1.0
  {
    PolicyScores(vals[0], vals[1], vals[2]);
    assert KvConfidence(f, vals[1]) == 0.7 && KvConfidence(f, vals[2]) == 0.7;
    OthersBelow(vals, f, 0, 1.0);
  }

  /** As a claim amount, the second value scores 0.95 in the scan and the others 0.6. */
  lemma AmountConfidences(vals: seq<string>, f: string)
    requires f == ClaimAmount && vals == [PolicyValue, AmountValue, NameValue]
    ensures KvConfidence(f, vals[1]) == 0.95
    ensures forall m :: 0 <= m < |vals| && m != 1 ==> KvConfidence(f, vals[m]) < 0.95
  {
    AmountScores(vals[0], vals[1], vals[2]);
    assert KvConfidence(f, vals[0]) == 0.6 && KvConfidence(f, vals[2]) == 0.6;
    OthersBelow(vals, f, 1, 0.95);
  }

  /** As a customer name, the third value scores 0.9 in the scan and the others 0.6. */
  lemma NameConfidences(vals: seq<string>, f: string)
    requires f == CustomerName && vals == [PolicyValue, AmountValue, NameValue]
    ensures KvConfidence(f, vals[2]) == 0.9
    ensures forall m :: 0 <= m < |vals| && m != 2 ==> KvConfidence(f, vals[m]) < 0.9
  {
    NameScores(vals[0], vals[1], vals[2]);
    assert KvConfidence(f, vals[0]) == 0.6 && KvConfidence(f, vals[1]) == 0.6;
    OthersBelow(vals, f, 2, 0.9);
  }

  /** Lines that each yield their value cleanly, the `t`-th mentioning `f` with the strictly highest
      scan confidence `c`, make that value the scan's entry for `f`. */
  lemma Decided(lines: seq<string>, vals: seq<string>, f: string, t: nat, c: real)
    requires |lines| == |vals| && t < |lines| && f in LabelKeywords
    requires forall m :: 0 <= m < |lines| ==> RawValue(lines, m, f) == Some(vals[m]) && vals[m] != []
    requires forall m :: 0 <= m < |lines| ==> Strip(ReplaceRuns(vals[m], IsSpace, 2)) == vals[m]
    requires Mentions(lines[t], f)
    requires KvConfidence(f, vals[t]) == c
    requires forall m :: 0 <= m < |vals| && m != t ==> KvConfidence(f, vals[m]) < c
    ensures FieldBest(lines, f) == Some((vals[t], c))
  {
    BestOfValues(lines, f, vals, t);
  }

  lemma PolicyDecided(lines: seq<string>, vals: seq<string>, f: string)
    requires f == PolicyNumber && vals == [PolicyValue, AmountValue, NameValue] && |lines| == 3
    requires forall m :: 0 <= m < |lines| ==> RawValue(lines, m, f) == Some(vals[m]) && vals[m] != []
    requires forall m :: 0 <= m < |lines| ==> Strip(ReplaceRuns(vals[m], IsSpace, 2)) == vals[m]
    requires Mentions(lines[0], f)
    ensures FieldBest(lines, f) == Some((PolicyValue, 1.0))
  {
    PolicyConfidences(vals, f);
    Decided(lines, vals, f, 0, 1.0);
  }

  /** The scan's policy number for the sample lines is the first line's value, at confidence 1. */
  lemma PolicyOfSample(lines: seq<string>, f: string)
    requires lines == [PolicyLine, AmountLine, NameLine] && f == PolicyNumber
    ensures FieldBest(lines, f) == Some((PolicyValue, 1.0))
  {
    var vals := [PolicyValue, AmountValue, NameValue];
    SampleRaw(lines, vals, f);
    PolicyLineMentions(lines[0], f);
    PolicyDecided(lines, vals, f);
  }

  lemma AmountDecided(lines: seq<string>, vals: seq<string>, f: string)
    requires f == ClaimAmount && vals == [PolicyValue, AmountValue, NameValue] && |lines| == 3
    requires forall m :: 0 <= m < |lines| ==> RawValue(lines, m, f) == Some(vals[m]) && vals[m] != []
    requires forall m :: 0 <= m < |lines| ==> Strip(ReplaceRuns(vals[m], IsSpace, 2)) == vals[m]
    requires Mentions(lines[1], f)
    ensures FieldBest(lines, f) == Some((AmountValue, 0.95))
  {
    AmountConfidences(vals, f);
    Decided(lines, vals, f, 1, 0.95);
  }

  /** The scan's claim amount for the sample lines is the second line's value, at confidence 0.95. */
  lemma AmountOfSample(lines: seq<string>, f: string)
    requires lines == [PolicyLine, AmountLine, NameLine] && f == ClaimAmount
    ensures FieldBest(lines, f) == Some((AmountValue, 0.95))
  {
    var vals := [PolicyValue, AmountValue, NameValue];
    SampleRaw(lines, vals, f);
    AmountLineMentions(lines[1], f);
    AmountDecided(lines, vals, f);
  }

  lemma NameDecided(lines: seq<string>, vals: seq<string>, f: string)
    requires f == CustomerName && vals == [PolicyValue, AmountValue, NameValue] && |lines| == 3
    requires forall m :: 0 <= m < |lines| ==> RawValue(lines, m, f) == Some(vals[m]) && vals[m] != []
    requires forall m :: 0 <= m < |lines| ==> Strip(ReplaceRuns(vals[m], IsSpace, 2)) == vals[m]
    requires Mentions(lines[2], f)
    ensures FieldBest(lines, f) == Some((NameValue, 0.9))
  {
    NameConfidences(vals, f);
    Decided(lines, vals, f, 2, 0.9);
  }

  /** The scan's customer name for the sample lines is the third line's value, at confidence 0.9. */
  lemma NameOfSample(lines: seq<string>, f: string)
    requires lines == [PolicyLine, AmountLine, NameLine] && f == CustomerName
    ensures FieldBest(lines, f) == Some((NameValue, 0.9))
  {
    var vals := [PolicyValue, AmountValue, NameValue];
    SampleRaw(lines, vals, f);
    NameLineMentions(lines[2], f);
    NameDecided(lines, vals, f);
  }

  /** The three rows the sample decides: field, value, and the scan's confidence. */
  predicate SampleRow(f: string, v: string, c: real) {
    || (f == PolicyNumber && v == PolicyValue && c == 1.0)
    || (f == ClaimAmount && v == AmountValue && c == 0.95)
    || (f == CustomerName && v == NameValue && c == 0.9)
  }

  /** The scan reports a field's best candidate. */
  lemma ScanReports(text: string, f: string, h: (string, real))
    requires f in LabelKeywords && FieldBest(Lines(text), f) == Some(h)
    ensures f in KvScan(text) && KvScan(text)[f] == h
  {
  }

  /** The scan of any text with the sample's lines reports each row. */
  lemma ScanOfSampleLines(text: string, f: string, v: string, c: real)
    requires Lines(text) == [PolicyLine, AmountLine, NameLine] && SampleRow(f, v, c)
    ensures f in KvScan(text) && KvScan(text)[f] == (v, c)
  {
    var lines := Lines(text);
    if f == PolicyNumber {
      PolicyOfSample(lines, f);
    } else if f == ClaimAmount {
      AmountOfSample(lines, f);
    } else {
      NameOfSample(lines, f);
    }
    ScanReports(text, f, (v, c));
  }

  /** A customer name never scores above 0.8. */
  lemma NameScoreAtMost(v: string)
    ensures Score(CustomerName, v) <= 0.8
  {
  }

  /** So pass 1 never gives a customer name more than 0.8. */
  lemma NamePass1AtMost(hits: seq<string>)
    ensures Pass1Field(CustomerName, hits).confidence <= 0.8
  {
    var fv := Pass1Field(CustomerName, hits);
    if fv.value.Some? {
      var i :| 0 <= i < |hits| && hits[i] == fv.value.value
        && fv.confidence == (if |hits| > 1 then Score(CustomerName, hits[i]) - 0.05 else Score(CustomerName, hits[i]));
      NameScoreAtMost(hits[i]);
    }
  }

  /** Pass 1 gives each row's field less than the row's scan confidence. */
  lemma Pass1BelowRow(table: PatternTable, text: string, search: Searcher, f: string, v: string, c: real)
    requires CapturesSucceed(table, text, search) && SampleRow(f, v, c)
    ensures f in Pass1(table, text, search) ==> Pass1(table, text, search)[f].confidence < c
  {
    if f in table {
      var hits := Captures(table[f], text, search, true).value;
      assert Pass1(table, text, search)[f] == Pass1Field(f, hits);
      if f == CustomerName {
        NamePass1AtMost(hits);
      }
    }
  }

  /** Whatever the regular-expression engine answers and whatever the pattern table, as long as pass 1
      raises nothing, a document whose lines are the sample's gets the policy number, the claim amount
      and the customer name from the key/value scan, at confidences 1, 0.95 and 0.9. */
  lemma SampleLinesDecide(text: string, table: PatternTable, search: Searcher, acquiredMeta: Meta, digest: string,
                          f: string, v: string, c: real)
    requires Lines(text) == [PolicyLine, AmountLine, NameLine] && SampleRow(f, v, c)
    requires CapturesSucceed(table, Normalize(text), search)
    ensures var r := ExtractWith(text, table, search, acquiredMeta, digest);
      r.Success? && f in r.value.fields && r.value.fields[f] == FieldValue(f, Some(v), c, Source, map["method" := "kv"])
  {
    ScanOfSampleLines(text, f, v, c);
    Pass1BelowRow(table, Normalize(text), search, f, v, c);
    KvOverrideWinsWith(text, table, search, acquiredMeta, digest, f, (v, c));
  }

  /** The sample document itself. */
  lemma SampleDocument(text: string, cfg: Option<PatternTable>, search: Searcher, acquiredMeta: Meta, digest: string,
                       f: string, v: string, c: real)
    requires text == SampleText && SampleRow(f, v, c)
    requires CapturesSucceed(TextPatterns(cfg), Normalize(text), search)
    ensures var r := ExtractFromText(text, cfg, search, acquiredMeta, digest);
      r.Success? && f in r.value.fields && r.value.fields[f] == FieldValue(f, Some(v), c, Source, map["method" := "kv"])
  {
    var table := TextPatterns(cfg);
    SampleLines(text, PolicyLine, AmountLine, NameLine);
    SampleLinesDecide(text, table, search, acquiredMeta, digest, f, v, c);
    assert ExtractFromText(text, cfg, search, acquiredMeta, digest) == ExtractWith(text, table, search, acquiredMeta, digest);
  }
}
