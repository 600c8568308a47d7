/** Choosing a form configuration automatically, as the Streamlit front end does: every configuration is
    run, scored by confidence and fill ratio, boosted when the file name hints at its form group, and the
    best one wins; the top three make a leaderboard. */
module AutoSelect {
  import opened Wrappers
  import opened Strings
  import opened Fields
  import opened Selection
  import opened Pipeline

  /** A field counts as filled when its value, stripped, is not empty. */
  predicate IsFilled(fv: FieldValue) {
    fv.value.Some? && !IsBlank(fv.value.value)
  }

  /** The names of the filled fields. */
  function FilledNames(fields: map<string, FieldValue>): (names: set<string>)
    ensures names <= fields.Keys
    ensures forall k :: k in fields ==> (k in names <==> IsFilled(fields[k]))
  {
    set k | k in fields && IsFilled(fields[k])
  }

  /** The triple `_score_result` returns. */
  datatype ResultScore = ResultScore(score: real, filled: nat, total: nat)

  /** `_score_result`: the pipeline confidence plus 0.2 times the share of filled fields. */
  function ScoreResult(out: PipelineOutput): (s: ResultScore)
    ensures s.total == |out.fields| && s.filled == |FilledNames(out.fields)|
    ensures s.filled <= s.total
    ensures out.confidence <= s.score <= out.confidence + 0.2
    ensures s.filled == 0 ==> s.score == out.confidence
    ensures s.total > 0 && s.filled == s.total ==> s.score == out.confidence + 0.2
    ensures s.total > 0 ==> s.score == out.confidence + 0.2 * ((s.filled as real) / (s.total as real))
    ensures s.total == 0 ==> s.score == out.confidence
  {
    var total := |out.fields|;
    var filled := |FilledNames(out.fields)|;
    assert filled <= total by {
      CardinalitySubset(FilledNames(out.fields), out.fields.Keys);
    }
    var ratio := if total > 0 then (filled as real) / (total as real) else 0.0;
    assert 0.0 <= ratio <= 1.0 by {
      if total > 0 {
        RatioBounds(filled as real, total as real);
      }
    }
    ResultScore(out.confidence + 0.2 * ratio, filled, total)
  }

  /** A share lies between 0 and 1. */
  lemma RatioBounds(a: real, b: real)
    requires 0.0 <= a <= b && b > 0.0
    ensures 0.0 <= a / b <= 1.0
  {
    assert a / b == a * (1.0 / b);
    assert b * (1.0 / b) == 1.0;
  }

  lemma CardinalitySubset<T>(a: set<T>, b: set<T>)
    requires a <= b
    ensures |a| <= |b|
  {
    assert b == a + (b - a);
  }

  /** Of two outputs with the same confidence and the same number of fields, the one whose filled
      fields include the other's scores at least as high. */
  lemma ScoreGrowsWithFilled(a: PipelineOutput, b: PipelineOutput)
    requires a.confidence == b.confidence && |a.fields| == |b.fields|
    requires FilledNames(a.fields) <= FilledNames(b.fields)
    ensures ScoreResult(a).score <= ScoreResult(b).score
  {
    var sa, sb := ScoreResult(a), ScoreResult(b);
    CardinalitySubset(FilledNames(a.fields), FilledNames(b.fields));
    if sa.total > 0 {
      ShareMonotone(sa.filled as real, sb.filled as real, sa.total as real);
    }
  }

  /** A larger part is a larger share of the same whole. */
  lemma ShareMonotone(a: real, b: real, t: real)
    requires 0.0 <= a <= b && t > 0.0
    ensures a / t <= b / t
  {
    var u := 1.0 / t;
    assert u > 0.0;
    assert a / t == a * u && b / t == b * u;
    assert (b - a) * u >= 0.0;
  }

  /** The form groups a configuration label can belong to. */
  datatype FormGroup = ClaimGroup | PolicyGroup | CustomerGroup

  /** The group of a configuration label, decided on the lower-cased label in the order claim, policy,
      customer/info. */
  function GroupOf(configLabel: string): (g: Option<FormGroup>)
    ensures g == Some(ClaimGroup) <==> Contains(Lower(configLabel), "claim")
    ensures g == Some(PolicyGroup) <==> !Contains(Lower(configLabel), "claim") && Contains(Lower(configLabel), "policy")
    ensures g == Some(CustomerGroup) <==> (!Contains(Lower(configLabel), "claim") && !Contains(Lower(configLabel), "policy") &&
      (Contains(Lower(configLabel), "customer") || Contains(Lower(configLabel), "info")))
  {
    var l := Lower(configLabel);
    if Contains(l, "claim") then Some(ClaimGroup)
    else if Contains(l, "policy") then Some(PolicyGroup)
    else if Contains(l, "customer") || Contains(l, "info") then Some(CustomerGroup)
    else None
  }

  /** The file-name keywords of each group, in the order they are tried. */
  function GroupKeywords(g: FormGroup): seq<string> {
    match g
    case ClaimGroup => ["claim", "fnol", "loss", "notice", "property-loss"]
    case PolicyGroup => ["policy", "schedule", "certificate"]
    case CustomerGroup => ["customer", "info", "information", "details"]
  }

  /** The loop over the keywords: each one that occurs in `name` is kept, in keyword order. */
  function TriggerScan(name: string, kws: seq<string>): seq<string>
    decreases |kws|
  {
    if |kws| == 0 then []
    else (if Contains(name, kws[0]) then [kws[0]] else []) + TriggerScan(name, kws[1..])
  }

  /** Each keyword if it occurs in `name`, nothing otherwise. */
  function KeywordOptions(name: string, kws: seq<string>): (os: seq<Option<string>>)
    ensures |os| == |kws|
    ensures forall i :: 0 <= i < |kws| ==> os[i] == (if Contains(name, kws[i]) then Some(kws[i]) else None)
  {
    seq(|kws|, i requires 0 <= i < |kws| => if Contains(name, kws[i]) then Some(kws[i]) else None)
  }

  /** The scan keeps exactly the keywords that occur in the name, once per position and in keyword
      order: the `m`-th trigger is the `m`-th keyword position whose keyword occurs (`Somes`). */
  lemma {:induction false} TriggerScanContents(name: string, kws: seq<string>)
    ensures TriggerScan(name, kws) == Somes(KeywordOptions(name, kws))
    ensures |TriggerScan(name, kws)| <= |kws|
    ensures forall t :: t in TriggerScan(name, kws) <==> t in kws && Contains(name, t)
    decreases |kws|
  {
    TriggerScanIsSomes(name, kws);
    if |kws| > 0 {
      TriggerScanContents(name, kws[1..]);
      assert forall t :: t in kws <==> t == kws[0] || t in kws[1..];
    }
  }

  lemma {:induction false} TriggerScanIsSomes(name: string, kws: seq<string>)
    ensures TriggerScan(name, kws) == Somes(KeywordOptions(name, kws))
    decreases |kws|
  {
    if |kws| > 0 {
      TriggerScanIsSomes(name, kws[1..]);
      var o := if Contains(name, kws[0]) then Some(kws[0]) else None;
      KeywordOptionsCons(name, kws);
      SomesCons(o, KeywordOptions(name, kws[1..]));
    }
  }

  lemma KeywordOptionsCons(name: string, kws: seq<string>)
    requires |kws| > 0
    ensures KeywordOptions(name, kws) ==
      [if Contains(name, kws[0]) then Some(kws[0]) else None] + KeywordOptions(name, kws[1..])
  {
  }

  /** The keywords that occur in `name`, in keyword order, each keyword position at most once. */
  function Triggers(name: string, kws: seq<string>): (ts: seq<string>)
    ensures ts == Somes(KeywordOptions(name, kws))
    ensures |ts| <= |kws|
    ensures forall t :: t in ts ==> t in kws && Contains(name, t)
    ensures forall k :: k in kws && Contains(name, k) ==> k in ts
  {
    TriggerScanContents(name, kws);
    TriggerScan(name, kws)
  }

  /** `min(0.1, 0.05 + 0.025 * (n - 1))` for `n` triggers, and 0 without any. */
  function BoostFor(n: nat): (b: real)
    ensures b == 0.0 <==> n == 0
    ensures b == 0.0 || b == 0.05 || b == 0.075 || b == 0.1
    ensures n == 1 ==> b == 0.05
    ensures n == 2 ==> b == 0.075
    ensures n >= 3 ==> b == 0.1
  {
    if n == 0 then 0.0 else Min(0.1, 0.05 + 0.025 * ((n - 1) as real))
  }

  /** More triggers never give a smaller boost. */
  lemma BoostMonotone(m: nat, n: nat)
    requires m <= n
    ensures BoostFor(m) <= BoostFor(n)
  {
  }

  /** The pair `filename_hint_boost` returns. */
  datatype Hint = Hint(boost: real, triggers: seq<string>)

  /** `filename_hint_boost`: the group's keywords found in the lower-cased file name, and a boost of
      0.05 for the first, 0.025 for each further one, at most 0.1. No group, no boost. */
  function FilenameHintBoost(filename: string, configLabel: string): (h: Hint)
    ensures GroupOf(configLabel).None? ==> h == Hint(0.0, [])
    ensures GroupOf(configLabel).Some? ==> h.triggers == Triggers(Lower(filename), GroupKeywords(GroupOf(configLabel).value))
    ensures h.boost == 0.0 <==> h.triggers == []
    ensures h.boost == 0.0 || h.boost == 0.05 || h.boost == 0.075 || h.boost == 0.1
    ensures h.boost == BoostFor(|h.triggers|)
  {
    match GroupOf(configLabel)
    case None => Hint(0.0, [])
    case Some(g) =>
      var ts := Triggers(Lower(filename), GroupKeywords(g));
      Hint(BoostFor(|ts|), ts)
  }

  /** A string with none of a needle's characters does not contain it. */
  lemma {:induction false} MissingCharNotContained(hay: string, needle: string, c: char)
    requires c in needle && c !in hay
    ensures !Contains(hay, needle)
    decreases |hay|
  {
    if |hay| > 0 {
      MissingCharNotContained(hay[1..], needle, c);
    }
  }

  /** A needle found at position `i` is contained. */
  lemma {:induction false} ContainedAt(hay: string, needle: string, i: nat)
    requires i + |needle| <= |hay| && hay[i..i + |needle|] == needle
    ensures Contains(hay, needle)
    decreases i
  {
    if i > 0 {
      assert hay[1..][i - 1..i - 1 + |needle|] == needle;
      ContainedAt(hay[1..], needle, i - 1);
    } else {
      assert needle <= hay;
    }
  }

  /** A string without upper-case ASCII letters is its own lower case. */
  lemma {:induction false} LowerKeeps(s: string)
    requires forall i :: 0 <= i < |s| ==> !('A' <= s[i] <= 'Z')
    ensures Lower(s) == s
  {
    assert forall i :: 0 <= i < |s| ==> Lower(s)[i] == s[i];
  }

  const ExampleFile: string := "property-loss-2024.pdf"
  const ExampleLabel: string := "claim_form.json"

  lemma ExampleFileLower(f: string)
    requires f == ExampleFile
    ensures Lower(f) == f
  {
    assert forall i :: 0 <= i < |f| ==> !('A' <= f[i] <= 'Z');
    LowerKeeps(f);
  }

  lemma ExampleLabelLower(l: string)
    requires l == ExampleLabel
    ensures Lower(l) == l
  {
    assert forall i :: 0 <= i < |l| ==> !('A' <= l[i] <= 'Z');
    LowerKeeps(l);
  }

  lemma ExampleLabelClaim(l: string)
    requires l == ExampleLabel
    ensures Contains(l, "claim")
  {
    assert l[0..5] == "claim";
    ContainedAt(l, "claim", 0);
  }

  lemma ExampleLabelIsClaim(l: string)
    requires l == ExampleLabel
    ensures GroupOf(l) == Some(ClaimGroup)
  {
    ExampleLabelLower(l);
    ExampleLabelClaim(l);
  }

  lemma ExampleFileHits(f: string, loss: string, propertyLoss: string)
    requires f == ExampleFile && loss == "loss" && propertyLoss == "property-loss"
    ensures Contains(f, loss) && Contains(f, propertyLoss)
  {
    assert f[9..13] == loss;
    ContainedAt(f, loss, 9);
    assert f[0..13] == propertyLoss;
    ContainedAt(f, propertyLoss, 0);
  }

  /** A name without 'c' and 'n' contains none of three keywords holding those letters. */
  lemma KeywordsMissed(f: string, claim: string, fnol: string, notice: string)
    requires 'c' !in f && 'n' !in f
    requires |claim| > 0 && claim[0] == 'c' && |fnol| > 1 && fnol[1] == 'n' && |notice| > 0 && notice[0] == 'n'
    ensures !Contains(f, claim) && !Contains(f, fnol) && !Contains(f, notice)
  {
    MissingCharNotContained(f, claim, 'c');
    MissingCharNotContained(f, fnol, 'n');
    MissingCharNotContained(f, notice, 'n');
  }

  /** Neither 'c' nor 'n' occurs in the example file name. */
  lemma ExampleFileLacks(f: string, c: char)
    requires f == ExampleFile && (c == 'c' || c == 'n')
    ensures c !in f
  {
    forall i | 0 <= i < |f| ensures f[i] != c {
    }
  }

  lemma ExampleTriggers(f: string)
    requires f == ExampleFile
    ensures Triggers(f, GroupKeywords(ClaimGroup)) == ["loss", "property-loss"]
  {
    var ks := GroupKeywords(ClaimGroup);
    assert |ks| == 5;
    var k0, k1, k2, k3, k4 := ks[0], ks[1], ks[2], ks[3], ks[4];
    ExampleFileHits(f, k2, k4);
    ExampleFileLacks(f, 'c');
    ExampleFileLacks(f, 'n');
    assert k0[0] == 'c' && k1[1] == 'n' && k3[0] == 'n';
    KeywordsMissed(f, k0, k1, k3);
    TriggersThirdAndFifth(f, ks);
    assert Triggers(f, ks) == TriggerScan(f, ks);
  }

  /** Of five keywords, a name containing only the third and the fifth triggers those two, in order. */
  lemma TriggersThirdAndFifth(name: string, ks: seq<string>)
    requires |ks| == 5
    requires !Contains(name, ks[0]) && !Contains(name, ks[1]) && Contains(name, ks[2])
    requires !Contains(name, ks[3]) && Contains(name, ks[4])
    ensures TriggerScan(name, ks) == [ks[2], ks[4]]
  {
    TriggersStep(name, ks[4], []);
    assert [ks[4]] + [] == ks[4..];
    assert TriggerScan(name, ks[4..]) == [ks[4]];
    TriggersStep(name, ks[3], ks[4..]);
    assert [ks[3]] + ks[4..] == ks[3..];
    assert TriggerScan(name, ks[3..]) == [ks[4]];
    TriggersStep(name, ks[2], ks[3..]);
    assert [ks[2]] + ks[3..] == ks[2..];
    assert TriggerScan(name, ks[2..]) == [ks[2]] + [ks[4]];
    TriggersStep(name, ks[1], ks[2..]);
    assert [ks[1]] + ks[2..] == ks[1..];
    assert TriggerScan(name, ks[1..]) == [ks[2], ks[4]];
    TriggersStep(name, ks[0], ks[1..]);
    assert [ks[0]] + ks[1..] == ks;
  }

  lemma TriggersStep(name: string, k: string, rest: seq<string>)
    ensures TriggerScan(name, [k] + rest) == (if Contains(name, k) then [k] else []) + TriggerScan(name, rest)
  {
    assert ([k] + rest)[1..] == rest;
  }

  /** "property-loss-2024.pdf" under the label "claim_form.json" triggers "loss" and "property-loss",
      for a boost of 0.075. */
  lemma HintExample(filename: string, configLabel: string)
    requires filename == ExampleFile && configLabel == ExampleLabel
    ensures FilenameHintBoost(filename, configLabel) == Hint(0.075, ["loss", "property-loss"])
  {
    ExampleLabelIsClaim(configLabel);
    ExampleFileLower(filename);
    ExampleTriggers(filename);
  }

  /** `f"{boost:.2f}"` for the boosts a non-empty trigger list can give. */
  function BoostText(n: nat): string {
    if n <= 1 then "0.05" else if n == 2 then "0.08" else "0.10"
  }

  function DigitValue(c: char): int { c as int - '0' as int }

  /** The text is the boost to two decimals: "0." and two digits whose value is within half a
      hundredth of `BoostFor(n)`. */
  lemma BoostTextRounds(n: nat)
    requires n > 0
    ensures var t := BoostText(n);
      && |t| == 4 && t[..2] == "0." && IsDigit(t[2]) && IsDigit(t[3])
      && var v := (10 * DigitValue(t[2]) + DigitValue(t[3])) as real / 100.0;
        v - 0.005 <= BoostFor(n) <= v + 0.005
  {
  }

  /** The candidate's reason: the boost and the triggers, or nothing when nothing triggered. */
  function Reason(triggers: seq<string>): (r: string)
    ensures r == [] <==> triggers == []
    ensures triggers != [] ==> "+" + BoostText(|triggers|) + " filename match: " <= r
  {
    if triggers == [] then "" else "+" + BoostText(|triggers|) + " filename match: " + Join(triggers, ", ")
  }

  /** The reason names every trigger. */
  lemma ReasonNamesTriggers(triggers: seq<string>, i: nat)
    requires i < |triggers|
    ensures Contains(Reason(triggers), triggers[i])
  {
    JoinContainsItem(triggers, ", ", i);
    ContainsInSuffix("+" + BoostText(|triggers|) + " filename match: ", Join(triggers, ", "), triggers[i]);
  }

  /** A configuration file offered for selection: its file name and path. */
  datatype ConfigEntry = ConfigEntry(fileName: string, path: string)

  /** One row of `candidates`. */
  datatype Candidate = Candidate(name: string, result: PipelineOutput, score: real, filled: nat, total: nat, reason: string)

  /** Runs one configuration; `run` stands for loading the configuration at a path and running the
      pipeline on the document with it. */
  function Evaluate(c: ConfigEntry, run: string -> PipelineOutput, filename: string): (cand: Candidate)
    ensures cand.name == c.fileName && cand.result == run(c.path)
    ensures cand.score == ScoreResult(run(c.path)).score + FilenameHintBoost(filename, c.fileName).boost
    ensures run(c.path).confidence <= cand.score <= run(c.path).confidence + 0.3
    ensures cand.filled <= cand.total == |run(c.path).fields|
    ensures cand.filled == ScoreResult(run(c.path)).filled && cand.total == ScoreResult(run(c.path)).total
    ensures cand.reason == Reason(FilenameHintBoost(filename, c.fileName).triggers)
    ensures cand.reason == [] <==> FilenameHintBoost(filename, c.fileName).triggers == []
  {
    var result := run(c.path);
    var s := ScoreResult(result);
    var h := FilenameHintBoost(filename, c.fileName);
    Candidate(c.fileName, result, s.score + h.boost, s.filled, s.total, Reason(h.triggers))
  }

  function Candidates(configs: seq<ConfigEntry>, run: string -> PipelineOutput, filename: string): (cs: seq<Candidate>)
    ensures |cs| == |configs|
    ensures forall i :: 0 <= i < |configs| ==> cs[i] == Evaluate(configs[i], run, filename)
  {
    seq(|configs|, i requires 0 <= i < |configs| => Evaluate(configs[i], run, filename))
  }

  function CandidateScore(c: Candidate): real { c.score }

  /** The metadata describing the chosen candidate. */
  function SummaryMeta(c: Candidate): (m: Meta)
    ensures m.Keys == {"selected_config", "score", "filled", "total", "reason"}
    ensures m["selected_config"] == MetaStr(c.name) && m["score"] == MetaReal(c.score)
    ensures m["filled"] == MetaInt(c.filled) && m["total"] == MetaInt(c.total) && m["reason"] == MetaStr(c.reason)
  {
    map["selected_config" := MetaStr(c.name), "score" := MetaReal(c.score), "filled" := MetaInt(c.filled),
        "total" := MetaInt(c.total), "reason" := MetaStr(c.reason)]
  }

  /** The summary of an evaluated configuration records its name, its boosted score, the filled and
      total counts of its result, and a reason that is empty exactly when the file name triggered
      nothing. */
  lemma SummaryOfEvaluate(c: ConfigEntry, run: string -> PipelineOutput, filename: string)
    ensures var m := SummaryMeta(Evaluate(c, run, filename));
      var s := ScoreResult(run(c.path));
      var h := FilenameHintBoost(filename, c.fileName);
      && m["selected_config"] == MetaStr(c.fileName)
      && m["score"] == MetaReal(s.score + h.boost)
      && m["filled"] == MetaInt(s.filled) && m["total"] == MetaInt(s.total)
      && m["reason"] == MetaStr(Reason(h.triggers))
      && (m["reason"] == MetaStr("") <==> h.triggers == [])
  {
  }

  /** The chosen result: the candidate's pipeline output with the summary written over its metadata. */
  function Annotated(c: Candidate): (out: PipelineOutput)
    ensures out.fields == c.result.fields && out.confidence == c.result.confidence
    ensures out.meta.Keys == c.result.meta.Keys + SummaryMeta(c).Keys
    ensures forall k :: k in SummaryMeta(c) ==> out.meta[k] == SummaryMeta(c)[k]
    ensures forall k :: k in c.result.meta && k !in SummaryMeta(c) ==> out.meta[k] == c.result.meta[k]
  {
    c.result.(meta := c.result.meta + SummaryMeta(c))
  }

  /** A leaderboard row. */
  datatype LeaderEntry = LeaderEntry(name: string, score: real, filled: nat, total: nat, reason: string)

  function Entry(c: Candidate): LeaderEntry {
    LeaderEntry(c.name, c.score, c.filled, c.total, c.reason)
  }

  function Scores(cs: seq<Candidate>): (ks: seq<real>)
    ensures |ks| == |cs|
    ensures forall i :: 0 <= i < |cs| ==> ks[i] == cs[i].score
  {
    seq(|cs|, i requires 0 <= i < |cs| => cs[i].score)
  }

  const NoConfigsOutput: PipelineOutput := PipelineOutput(map[], 0.0, map["error" := MetaStr("No configs found")])

  /** The first `m` positions of the stable descending ranking are a valid top `m`: ranked among
      themselves, and ahead of every position left out. */
  predicate TopPositions(keys: seq<real>, top: seq<nat>, m: nat) {
    && |top| == m
    && Ranked(keys, top)
    && (forall a, b :: 0 <= a < b < m ==> top[a] != top[b])
    && (forall j, a :: 0 <= j < |keys| && j !in top && 0 <= a < m ==> RankedBefore(keys, top[a], j))
  }

  lemma TopDistinct(keys: seq<real>, r: seq<nat>, m: nat)
    requires Ranked(keys, r) && m <= |r|
    ensures forall a, b :: 0 <= a < b < m ==> r[..m][a] != r[..m][b]
  {
    forall a, b | 0 <= a < b < m ensures r[a] != r[b] {
      assert RankedBefore(keys, r[a], r[b]);
    }
  }

  lemma TopAheadOfRest(keys: seq<real>, r: seq<nat>, m: nat)
    requires Ranked(keys, r) && m <= |r|
    requires forall i :: 0 <= i < |keys| ==> i in r
    ensures forall j, a :: 0 <= j < |keys| && j !in r[..m] && 0 <= a < m ==> RankedBefore(keys, r[..m][a], j)
  {
    forall j, a | 0 <= j < |keys| && j !in r[..m] && 0 <= a < m ensures RankedBefore(keys, r[a], j) {
      assert j in r;
      var c :| 0 <= c < |r| && r[c] == j;
    }
  }

  lemma RankedPrefix(keys: seq<real>, r: seq<nat>, m: nat)
    requires Ranked(keys, r) && m <= |r|
    ensures Ranked(keys, r[..m])
  {
    assert forall a :: 0 <= a < m ==> r[..m][a] == r[a];
  }

  lemma TopOfRanking(keys: seq<real>, m: nat)
    requires m <= |keys|
    ensures TopPositions(keys, RankFrom(keys, 0)[..m], m)
  {
    var r := RankFrom(keys, 0);
    RankedPrefix(keys, r, m);
    TopDistinct(keys, r, m);
    TopAheadOfRest(keys, r, m);
  }

  /** The top three candidates in descending score, ties in configuration order. */
  function Leaderboard(cs: seq<Candidate>): (b: seq<LeaderEntry>)
    ensures |b| == if |cs| < 3 then |cs| else 3
    ensures exists top :: (TopPositions(Scores(cs), top, |b|) &&
      forall a :: 0 <= a < |b| ==> top[a] < |cs| && b[a] == Entry(cs[top[a]]))
    ensures |cs| > 0 ==> b[0] == Entry(cs[FirstMax(cs, CandidateScore)])
  {
    var m := if |cs| < 3 then |cs| else 3;
    var top := RankFrom(Scores(cs), 0)[..m];
    TopOfRanking(Scores(cs), m);
    assert |cs| > 0 ==> top[0] == FirstMax(cs, CandidateScore) by {
      if |cs| > 0 {
        RankHeadIsFirstMax(cs, CandidateScore, Scores(cs));
      }
    }
    seq(m, a requires 0 <= a < m => Entry(cs[top[a]]))
  }

  /** The leaderboard is in non-increasing score order. */
  lemma LeaderboardDescending(cs: seq<Candidate>)
    ensures var b := Leaderboard(cs);
      forall a, c :: 0 <= a < c < |b| ==> b[a].score >= b[c].score
  {
    var b := Leaderboard(cs);
    var top :| TopPositions(Scores(cs), top, |b|) &&
      forall a :: 0 <= a < |b| ==> top[a] < |cs| && b[a] == Entry(cs[top[a]]);
    forall a, c | 0 <= a < c < |b| ensures b[a].score >= b[c].score {
      assert RankedBefore(Scores(cs), top[a], top[c]);
    }
  }

  /** The selection over a non-empty candidate list: the first best-scoring candidate, annotated, its
      summary, and the leaderboard. */
  function Choose(cs: seq<Candidate>): (r: (PipelineOutput, Meta, seq<LeaderEntry>))
    requires cs != []
    ensures exists i :: (0 <= i < |cs|
        && (forall j :: 0 <= j < |cs| ==> cs[j].score <= cs[i].score)
        && (forall j :: 0 <= j < i ==> cs[j].score < cs[i].score)
        && r.0 == Annotated(cs[i]) && r.1 == SummaryMeta(cs[i]))
    ensures r.2 == Leaderboard(cs)
  {
    var best := FirstMax(cs, CandidateScore);
    (Annotated(cs[best]), SummaryMeta(cs[best]), Leaderboard(cs))
  }

  /** `run_auto_configs`: the annotated output of the first best-scoring configuration, its summary,
      and the leaderboard. */
  function RunAutoConfigs(configs: seq<ConfigEntry>, run: string -> PipelineOutput, filename: string)
    : (r: (PipelineOutput, Meta, seq<LeaderEntry>))
    ensures configs == [] ==> r == (NoConfigsOutput, map[], [])
    ensures configs != [] ==> var cs := Candidates(configs, run, filename);
      exists i :: (0 <= i < |cs|
        && (forall j :: 0 <= j < |cs| ==> cs[j].score <= cs[i].score)
        && (forall j :: 0 <= j < i ==> cs[j].score < cs[i].score)
        && r.0 == Annotated(cs[i]) && r.1 == SummaryMeta(cs[i]))
    ensures configs != [] ==> r.2 == Leaderboard(Candidates(configs, run, filename))
  {
    if configs == [] then (NoConfigsOutput, map[], [])
    else Choose(Candidates(configs, run, filename))
  }
}
