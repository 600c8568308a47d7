/** The batch command line: automatic configuration choice (its own copy of the selection loop),
    the manual mode, and the filled/missing checklist it prints for each document. */
module Cli {
  import opened Wrappers
  import opened Strings
  import opened Fields
  import opened Selection
  import opened Pipeline
  import opened AutoSelect

  predicate NotSlash(c: char) { c != '/' }

  /** `os.path.basename`: what follows the last '/'. */
  function Basename(path: string): (b: string)
    ensures |b| <= |path| && path[|path| - |b|..] == b
    ensures forall i :: 0 <= i < |b| ==> b[i] != '/'
    ensures |b| < |path| ==> path[|path| - |b| - 1] == '/'
  {
    var n := TrailingCount(path, NotSlash);
    path[|path| - n..]
  }

  /** One row of the command line's `candidates`: `(sc, fi, to, fn, res, reason)`. */
  datatype CliCandidate = CliCandidate(score: real, filled: nat, total: nat, name: string, result: PipelineOutput, reason: string)

  function CliEvaluate(c: ConfigEntry, run: string -> PipelineOutput, filename: string): (cand: CliCandidate)
    ensures cand.name == c.fileName && cand.result == run(c.path)
    ensures cand.score == ScoreResult(run(c.path)).score + FilenameHintBoost(filename, c.fileName).boost
  {
    var res := run(c.path);
    var s := ScoreResult(res);
    var h := FilenameHintBoost(filename, c.fileName);
    CliCandidate(s.score + h.boost, s.filled, s.total, c.fileName, res, Reason(h.triggers))
  }

  function CliScore(c: CliCandidate): real { c.score }

  /** The metadata the command line writes over the chosen result's metadata. */
  function CliSummary(c: CliCandidate): Meta {
    map["selected_config" := MetaStr(c.name), "score" := MetaReal(c.score), "filled" := MetaInt(c.filled),
        "total" := MetaInt(c.total), "reason" := MetaStr(c.reason)]
  }

  function CliCandidates(configs: seq<ConfigEntry>, run: string -> PipelineOutput, filename: string): (cs: seq<CliCandidate>)
    ensures |cs| == |configs|
    ensures forall i :: 0 <= i < |configs| ==> cs[i] == CliEvaluate(configs[i], run, filename)
  {
    seq(|configs|, i requires 0 <= i < |configs| => CliEvaluate(configs[i], run, filename))
  }

  /** The auto-select block, entered only with a non-empty configuration list: every configuration
      is run and scored against the document's base name, and the first best-scoring one is kept with
      its summary added to the metadata. */
  function CliAutoSelect(configs: seq<ConfigEntry>, run: string -> PipelineOutput, path: string): (out: PipelineOutput)
    requires configs != []
    ensures var cs := CliCandidates(configs, run, Basename(path));
      exists i :: (0 <= i < |cs|
        && (forall j :: 0 <= j < |cs| ==> cs[j].score <= cs[i].score)
        && (forall j :: 0 <= j < i ==> cs[j].score < cs[i].score)
        && out.fields == run(configs[i].path).fields
        && out.meta == run(configs[i].path).meta + CliSummary(cs[i]))
  {
    var cs := CliCandidates(configs, run, Basename(path));
    var c := cs[FirstMax(cs, CliScore)];
    c.result.(meta := c.result.meta + CliSummary(c))
  }

  /** The command line and the Streamlit front end choose the same configuration and produce the same
      annotated result for a document. */
  lemma CliAutoAgreesWithApp(configs: seq<ConfigEntry>, run: string -> PipelineOutput, path: string)
    requires configs != []
    ensures CliAutoSelect(configs, run, path) == RunAutoConfigs(configs, run, Basename(path)).0
  {
    var filename := Basename(path);
    var cs := CliCandidates(configs, run, filename);
    var app := Candidates(configs, run, filename);
    forall j | 0 <= j < |cs| ensures CliScore(cs[j]) == CandidateScore(app[j]) {
      SameCandidate(configs[j], run, filename);
    }
    FirstMaxSameKeys(cs, CliScore, app, CandidateScore);
    var i := FirstMax(cs, CliScore);
    SameCandidate(configs[i], run, filename);
    assert CliAutoSelect(configs, run, path) == cs[i].result.(meta := cs[i].result.meta + CliSummary(cs[i]));
    assert RunAutoConfigs(configs, run, filename).0 == Annotated(app[i]);
  }

  /** One configuration, evaluated by the command line and by the front end: same score, same result,
      same summary. */
  lemma SameCandidate(c: ConfigEntry, run: string -> PipelineOutput, filename: string)
    ensures CliEvaluate(c, run, filename).score == Evaluate(c, run, filename).score
    ensures CliEvaluate(c, run, filename).result == Evaluate(c, run, filename).result
    ensures CliSummary(CliEvaluate(c, run, filename)) == SummaryMeta(Evaluate(c, run, filename))
  {
  }

  /** Manual mode: the pipeline output for the configured file, with the summary of its own score and
      the reason "manual config"; the selected configuration is the path's base name, or none for an
      empty path. */
  function CliManual(out: PipelineOutput, configPath: string): (r: PipelineOutput)
    ensures r.fields == out.fields && r.confidence == out.confidence
    ensures r.meta.Keys == out.meta.Keys + {"selected_config", "score", "filled", "total", "reason"}
    ensures r.meta["reason"] == MetaStr("manual config")
    ensures r.meta["selected_config"] == (if configPath == [] then MetaNone else MetaStr(Basename(configPath)))
    ensures r.meta["score"] == MetaReal(ScoreResult(out).score)
    ensures r.meta["filled"] == MetaInt(ScoreResult(out).filled) && r.meta["total"] == MetaInt(ScoreResult(out).total)
    ensures forall k :: k in out.meta && k !in {"selected_config", "score", "filled", "total", "reason"} ==>
      r.meta[k] == out.meta[k]
  {
    var s := ScoreResult(out);
    var selected := if configPath == [] then MetaNone else MetaStr(Basename(configPath));
    var added := map["selected_config" := selected, "score" := MetaReal(s.score), "filled" := MetaInt(s.filled),
                     "total" := MetaInt(s.total), "reason" := MetaStr("manual config")];
    assert added.Keys == {"selected_config", "score", "filled", "total", "reason"};
    assert added["reason"] == MetaStr("manual config") && added["selected_config"] == selected;
    assert added["score"] == MetaReal(s.score);
    assert added["filled"] == MetaInt(s.filled) && added["total"] == MetaInt(s.total);
    out.(meta := out.meta + added)
  }

  /** One document: auto mode when it is asked for and there are configurations, manual mode otherwise. */
  function ProcessDocument(autoConfig: bool, configs: seq<ConfigEntry>, configPath: string,
                           run: string -> PipelineOutput, path: string): (r: PipelineOutput)
    ensures autoConfig && configs != [] ==> r == CliAutoSelect(configs, run, path)
    ensures !(autoConfig && configs != []) ==> r == CliManual(run(configPath), configPath)
    ensures "selected_config" in r.meta && "reason" in r.meta
  {
    if autoConfig && configs != [] then
      var out := CliAutoSelect(configs, run, path);
      assert "selected_config" in out.meta && "reason" in out.meta;
      out
    else CliManual(run(configPath), configPath)
  }

  /** The checklist's split of field names: filled fields have a value that is not blank. */
  function FilledMissing(fields: map<string, FieldValue>): (r: (set<string>, set<string>))
    ensures r.0 + r.1 == fields.Keys
    ensures r.0 * r.1 == {}
    ensures forall k :: k in fields ==> (k in r.0 <==> IsFilled(fields[k]))
  {
    var filled := set k | k in fields && IsFilled(fields[k]);
    (filled, fields.Keys - filled)
  }

  /** The checklist agrees with the score: it lists as filled exactly as many fields as the score
      counted, and the two lists together are all the fields. */
  lemma ChecklistMatchesScore(out: PipelineOutput)
    ensures |FilledMissing(out.fields).0| == ScoreResult(out).filled
    ensures |FilledMissing(out.fields).0| + |FilledMissing(out.fields).1| == ScoreResult(out).total
  {
    var (f, m) := FilledMissing(out.fields);
    assert f == FilledNames(out.fields);
    assert out.fields.Keys == f + m;
  }

  const MoreSuffixStart: string := ", ...(+"
  const MoreSuffixEnd: string := " more)"

  /** `shortlist(items, n)`: all items joined by ", ", or the first `n` followed by a count of the rest. */
  function Shortlist(items: seq<string>, n: nat): (r: string)
    ensures |items| <= n ==> r == Join(items, ", ")
    ensures |items| > n ==> exists d :: ((forall i :: 0 <= i < |d| ==> IsDigit(d[i])) && ParseDigits(d) == |items| - n &&
      |d| > 0 && d[0] != '0' &&
      r == Join(items[..n], ", ") + MoreSuffixStart + d + MoreSuffixEnd)
  {
    if |items| > n then
      var d := NatToString(|items| - n);
      NatToStringRoundTrip(|items| - n);
      Join(items[..n], ", ") + MoreSuffixStart + d + MoreSuffixEnd
    else Join(items, ", ")
  }
}
