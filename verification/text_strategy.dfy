/** `TextPDFExtractor.extract` once the text layer has been read: text normalisation, the regex pass
    over the merged pattern table, the key/value override, and the document metadata. */
module TextStrategy {
  import opened Wrappers
  import opened Strings
  import opened Fields
  import opened Patterns
  import opened Scoring
  import opened Selection
  import opened LabelScan

  const Nbsp: char := '\U{00A0}'

  /** The name both the field sources and the pipeline's error records use for this extractor. */
  const Source: string := "text"

  /** `re.sub(r"\u00A0", " ", text)`: every no-break space becomes a space. */
  function ReplaceNbsp(s: string): (r: string)
    ensures |r| == |s|
    ensures forall i :: 0 <= i < |s| ==> r[i] == (if s[i] == Nbsp then ' ' else s[i])
  {
    seq(|s|, i requires 0 <= i < |s| => if s[i] == Nbsp then ' ' else s[i])
  }

  /** A '-' directly followed by a line feed. */
  predicate HyphenBreakAt(s: string, i: int) {
    0 <= i < |s| - 1 && s[i] == '-' && s[i + 1] == '\n'
  }

  /** `re.sub(r"-\n", "", t)`: one left-to-right pass deleting each non-overlapping "-\n". */
  function JoinHyphenBreaks(s: string): (r: string)
    ensures |r| <= |s|
    ensures forall i :: 0 <= i < |r| ==> r[i] in s
  {
    HyphenJoinFrom(s);
    HyphenJoin(s)
  }

  /** The deleting pass itself. */
  function HyphenJoin(s: string): string
    decreases |s|
  {
    if |s| == 0 then []
    else if HyphenBreakAt(s, 0) then HyphenJoin(s[2..])
    else [s[0]] + HyphenJoin(s[1..])
  }

  lemma {:induction false} HyphenJoinFrom(s: string)
    ensures |HyphenJoin(s)| <= |s|
    ensures forall i :: 0 <= i < |HyphenJoin(s)| ==> HyphenJoin(s)[i] in s
    decreases |s|
  {
    if |s| > 0 {
      if HyphenBreakAt(s, 0) {
        HyphenJoinFrom(s[2..]);
      } else {
        HyphenJoinFrom(s[1..]);
        var rest := HyphenJoin(s[1..]);
        assert forall i :: 0 <= i < |rest| ==> rest[i] in s;
      }
    }
  }

  predicate IsTabOrCr(c: char) { c == '\t' || c == '\r' }

  predicate IsAsciiSpace(c: char) { c == ' ' }

  /** A line break after a hyphen is deleted with the hyphen, joining the two lines: when `a` holds no
      "-\n" of its own, `a + "-\n" + b` becomes `a` followed by the treatment of `b`. With
      `JoinHyphenBreaksKeeps` this fixes the result on every input, cutting it at its first "-\n". */
  lemma JoinHyphenBreaksJoins(a: string, b: string)
    requires forall i | 0 <= i < |a| :: !HyphenBreakAt(a, i)
    ensures JoinHyphenBreaks(a + "-\n" + b) == a + JoinHyphenBreaks(b)
  {
    HyphenJoinJoins(a, b);
  }

  lemma {:induction false} HyphenJoinJoins(a: string, b: string)
    requires forall i | 0 <= i < |a| :: !HyphenBreakAt(a, i)
    ensures HyphenJoin(a + "-\n" + b) == a + HyphenJoin(b)
    decreases |a|
  {
    var s := a + "-\n" + b;
    if |a| == 0 {
      assert s == "-\n" + b && HyphenBreakAt(s, 0) && s[2..] == b;
    } else {
      assert s[0] == a[0];
      if |a| == 1 {
        assert s[1] == '-';
      } else {
        assert s[1] == a[1];
        assert !HyphenBreakAt(a, 0);
      }
      assert !HyphenBreakAt(s, 0);
      assert s[1..] == a[1..] + "-\n" + b;
      forall i | 0 <= i < |a[1..]| ensures !HyphenBreakAt(a[1..], i) {
        assert !HyphenBreakAt(a, i + 1);
      }
      HyphenJoinJoins(a[1..], b);
      assert [a[0]] + (a[1..] + HyphenJoin(b)) == a + HyphenJoin(b);
    }
  }

  /** A hyphen that is not at a line end stays, and the later hyphenated break is still joined. */
  lemma HyphenJoinExample()
    ensures JoinHyphenBreaks("x-y-\nz") == "x-yz"
  {
    JoinHyphenBreaksJoins("x-y", "z");
    JoinHyphenBreaksKeeps("z");
    assert "x-y" + "-\n" + "z" == "x-y-\nz";
  }

  /** `_normalize_text`: non-breaking spaces become spaces, hyphenated line breaks are joined, runs of
      tabs and carriage returns become one space, then runs of two or more spaces become one. */
  function Normalize(text: string): (r: string)
    ensures |r| <= |text|
    ensures forall i :: 0 <= i < |r| ==> r[i] != Nbsp && !IsTabOrCr(r[i])
    ensures NoDoubleSpace(r)
  {
    var t1 := ReplaceNbsp(text);
    var t2 := JoinHyphenBreaks(t1);
    var t3 := ReplaceRuns(t2, IsTabOrCr, 1);
    assert forall i :: 0 <= i < |t3| ==> t3[i] != Nbsp;
    var t4 := ReplaceRuns(t3, IsAsciiSpace, 2);
    assert forall i :: 0 <= i < |t4| ==> t4[i] == ' ' || t4[i] in t3;
    t4
  }

  /** Text that normalisation has nothing to do to. */
  predicate NormalForm(t: string) {
    && (forall i :: 0 <= i < |t| ==> t[i] != Nbsp && !IsTabOrCr(t[i]))
    && NoDoubleSpace(t)
    && (forall i | 0 <= i < |t| :: !HyphenBreakAt(t, i))
  }

  lemma {:induction false} JoinHyphenBreaksKeeps(s: string)
    requires forall i | 0 <= i < |s| :: !HyphenBreakAt(s, i)
    ensures JoinHyphenBreaks(s) == s
  {
    HyphenJoinKeeps(s);
  }

  lemma {:induction false} HyphenJoinKeeps(s: string)
    requires forall i | 0 <= i < |s| :: !HyphenBreakAt(s, i)
    ensures HyphenJoin(s) == s
    decreases |s|
  {
    if |s| > 0 {
      assert !HyphenBreakAt(s, 0);
      assert forall i | 0 <= i < |s| - 1 :: !HyphenBreakAt(s[1..], i) by {
        forall i | 0 <= i < |s| - 1 ensures !HyphenBreakAt(s[1..], i) {
          assert !HyphenBreakAt(s, i + 1);
        }
      }
      HyphenJoinKeeps(s[1..]);
    }
  }

  /** `ReplaceRuns` leaves a text alone when no run is long enough: either no character is in the class,
      or runs are single characters and the threshold is at least 2. */
  lemma {:induction false} ReplaceRunsKeeps(s: string, inRun: char -> bool, minLen: nat)
    requires minLen >= 2 || forall i :: 0 <= i < |s| ==> !inRun(s[i])
    requires minLen >= 1
    requires forall i :: 0 <= i < |s| - 1 ==> !(inRun(s[i]) && inRun(s[i + 1]))
    ensures ReplaceRuns(s, inRun, minLen) == s
    decreases |s|
  {
    if |s| > 0 {
      if inRun(s[0]) {
        var n := LeadingCount(s, inRun);
        assert n == 1 by {
          if |s| > 1 {
            assert !inRun(s[1]);
          }
        }
        ReplaceRunsKeeps(s[1..], inRun, minLen);
        assert s[..1] + s[1..] == s;
      } else {
        ReplaceRunsKeeps(s[1..], inRun, minLen);
        assert [s[0]] + s[1..] == s;
      }
    }
  }

  /** Normalisation changes nothing on text that is already in normal form. */
  lemma NormalizeKeepsNormalForm(t: string)
    requires NormalForm(t)
    ensures Normalize(t) == t
  {
    assert ReplaceNbsp(t) == t;
    JoinHyphenBreaksKeeps(t);
    ReplaceRunsKeeps(t, IsTabOrCr, 1);
    ReplaceRunsKeeps(t, IsAsciiSpace, 2);
  }

  /** The score of a hit for `field`. */
  function ScoreOf(field: string): string -> real {
    h => Score(field, h)
  }

  /** Pass 1 for one field, given the stripped group-1 texts of its matching patterns in pattern order:
      the first best-scoring hit with a positive score, its score lowered by 0.05 when more than one
      pattern matched; no value and confidence 0 when every hit is blank. */
  function Pass1Field(field: string, hits: seq<string>): (fv: FieldValue)
    ensures fv.name == field && fv.source == Source && fv.meta == map[]
    ensures fv.value.None? <==> forall j :: 0 <= j < |hits| ==> IsBlank(hits[j])
    ensures fv.value.None? ==> fv.confidence == 0.0
    ensures fv.value.Some? ==> exists i: nat :: (FirstBest(field, hits, i) && hits[i] == fv.value.value
      && fv.confidence == (if |hits| > 1 then Score(field, hits[i]) - 0.05 else Score(field, hits[i])))
    ensures fv.value.Some? ==> 0.35 <= fv.confidence <= 0.9
  {
    FirstAboveScores(field, hits);
    match FirstAbove(hits, ScoreOf(field), 0.0)
    case None =>
      FieldValue(field, None, 0.0, Source, map[])
    case Some(i) =>
      var best := Score(field, hits[i]);
      var conf := if |hits| > 1 && best > 0.2 then best - 0.05 else best;
      assert Clamp01(conf) == conf;
      assert FirstBest(field, hits, i);
      FieldValue(field, Some(hits[i]), Clamp01(conf), Source, map[])
  }

  /** Hit `i` has the largest score and no earlier hit has it. */
  predicate FirstBest(field: string, hits: seq<string>, i: nat) {
    && i < |hits|
    && (forall j :: 0 <= j < |hits| ==> Score(field, hits[j]) <= Score(field, hits[i]))
    && (forall j :: 0 <= j < i ==> Score(field, hits[j]) < Score(field, hits[i]))
  }

  /** The first-maximum scan over the scores of the hits, stated in terms of `Score`. */
  lemma FirstAboveScores(field: string, hits: seq<string>)
    ensures var r := FirstAbove(hits, ScoreOf(field), 0.0);
      && (r.None? <==> forall j :: 0 <= j < |hits| ==> IsBlank(hits[j]))
      && (r.Some? ==> FirstBest(field, hits, r.value) && !IsBlank(hits[r.value]) && 0.4 <= Score(field, hits[r.value]) <= 0.9)
  {
    var r := FirstAbove(hits, ScoreOf(field), 0.0);
    assert forall j :: 0 <= j < |hits| ==> ScoreOf(field)(hits[j]) == Score(field, hits[j]);
  }

  /** The regex pass succeeds when no matching pattern lacks a group 1. */
  predicate CapturesSucceed(table: PatternTable, text: string, search: Searcher) {
    forall k :: k in table ==> Captures(table[k], text, search, true).Success?
  }

  /** Pass 1 over a whole pattern table, on the normalised text, with DOTALL on. */
  function Pass1(table: PatternTable, text: string, search: Searcher): (fields: map<string, FieldValue>)
    requires CapturesSucceed(table, text, search)
    ensures fields.Keys == table.Keys
    ensures WellFormedFields(fields)
    ensures forall k :: k in fields ==> (fields[k].source == Source &&
      (fields[k].value.None? <==> forall h :: h in Captures(table[k], text, search, true).value ==> IsBlank(h)))
    ensures forall k :: k in fields ==> fields[k] == Pass1Field(k, Captures(table[k], text, search, true).value)
  {
    var fields := map k | k in table :: Pass1Field(k, Captures(table[k], text, search, true).value);
    forall k | k in fields
      ensures fields[k].name == k && 0.0 <= fields[k].confidence <= 1.0 && fields[k].source == Source
      ensures fields[k].value.None? <==> forall h :: h in Captures(table[k], text, search, true).value ==> IsBlank(h)
    {
      var hits := Captures(table[k], text, search, true).value;
      assert fields[k] == Pass1Field(k, hits);
      Pass1FieldShape(k, hits);
    }
    fields
  }

  /** The facts about one pass-1 entry that the whole table needs. */
  lemma Pass1FieldShape(field: string, hits: seq<string>)
    ensures var fv := Pass1Field(field, hits);
      && fv.name == field && 0.0 <= fv.confidence <= 1.0 && fv.source == Source
      && (fv.value.None? <==> forall h :: h in hits ==> IsBlank(h))
  {
    AllBlankByIndex(hits);
  }

  /** Every element is blank exactly when every position holds a blank element. */
  lemma AllBlankByIndex(hits: seq<string>)
    ensures (forall j :: 0 <= j < |hits| ==> IsBlank(hits[j])) <==> (forall h :: h in hits ==> IsBlank(h))
  {
  }

  /** A key/value candidate replaces the current entry: its value is non-empty and there is no entry,
      or the entry has no value, or the candidate is strictly more confident. */
  predicate KvWins(fields: map<string, FieldValue>, k: string, h: (string, real)) {
    h.0 != [] && (k !in fields || fields[k].value.None? || h.1 > fields[k].confidence)
  }

  /** The entry a winning key/value candidate writes. */
  function KvField(k: string, h: (string, real)): (fv: FieldValue)
    ensures fv.name == k && fv.value == Some(h.0) && fv.confidence == h.1 && fv.source == Source
    ensures fv.meta == map["method" := "kv"]
  {
    FieldValue(k, Some(h.0), h.1, Source, map["method" := "kv"])
  }

  /** The override loop after pass 1. */
  function ApplyKv(fields: map<string, FieldValue>, kv: map<string, (string, real)>): (r: map<string, FieldValue>)
    ensures r.Keys == fields.Keys + (set k | k in kv && kv[k].0 != [])
    ensures forall k :: k in r && k in kv && KvWins(fields, k, kv[k]) ==> r[k] == KvField(k, kv[k])
    ensures forall k :: k in r && !(k in kv && KvWins(fields, k, kv[k])) ==> k in fields && r[k] == fields[k]
  {
    map k | k in fields.Keys + (set k | k in kv && kv[k].0 != []) ::
      if k in kv && KvWins(fields, k, kv[k]) then KvField(k, kv[k]) else fields[k]
  }

  /** The override never takes away a value and never lowers the confidence of an entry that had one. */
  lemma ApplyKvNeverWorse(fields: map<string, FieldValue>, kv: map<string, (string, real)>, k: string)
    requires k in fields && fields[k].value.Some?
    ensures k in ApplyKv(fields, kv)
    ensures ApplyKv(fields, kv)[k].value.Some?
    ensures ApplyKv(fields, kv)[k].confidence >= fields[k].confidence
  {
  }

  /** Applying the same candidates a second time changes nothing. */
  lemma ApplyKvIdempotent(fields: map<string, FieldValue>, kv: map<string, (string, real)>)
    ensures ApplyKv(ApplyKv(fields, kv), kv) == ApplyKv(fields, kv)
  {
    var once := ApplyKv(fields, kv);
    var twice := ApplyKv(once, kv);
    forall k | k in twice ensures twice[k] == once[k] {
      if k in kv && KvWins(fields, k, kv[k]) {
        assert once[k] == KvField(k, kv[k]);
      } else {
        assert once[k] == fields[k];
      }
    }
  }

  /** `AXA\s*XL` matched case-insensitively starting at `i`, with the "XL" starting at `j`. */
  predicate AxaXlAt(s: string, i: nat, j: nat) {
    && i + 3 <= j && j + 2 <= |s|
    && LowerChar(s[i]) == 'a' && LowerChar(s[i + 1]) == 'x' && LowerChar(s[i + 2]) == 'a'
    && IsBlank(s[i + 3..j])
    && LowerChar(s[j]) == 'x' && LowerChar(s[j + 1]) == 'l'
  }

  /** `bool(re.search(r"AXA\s*XL", text, flags=re.IGNORECASE))`. */
  predicate ContainsAxaXl(s: string) {
    exists i: nat, j: nat | i <= j <= |s| :: AxaXlAt(s, i, j)
  }

  /** The patterns the text extractor searches: the defaults merged with the configured ones. */
  function TextPatterns(cfg: Option<PatternTable>): (table: PatternTable)
    ensures table.Keys == DefaultPatterns.Keys + (if cfg.Some? then cfg.value.Keys else {})
  {
    EffectivePatterns(if cfg.Some? then cfg.value else map[])
  }

  lemma LabelKeysAreDefaultKeys()
    ensures LabelKeywords.Keys == DefaultPatterns.Keys
  {
  }

  /** Candidates only for keys that already have entries: the override adds no key and keeps every
      confidence in [0, 1]. */
  lemma OverrideKeepsKeys(fields: map<string, FieldValue>, kv: map<string, (string, real)>)
    requires kv.Keys <= fields.Keys
    requires WellFormedFields(fields)
    requires forall f :: f in kv ==> PlausibleHit(kv[f])
    ensures ApplyKv(fields, kv).Keys == fields.Keys
    ensures WellFormedFields(ApplyKv(fields, kv))
  {
    var r := ApplyKv(fields, kv);
    forall k | k in r ensures r[k].name == k && 0.0 <= r[k].confidence <= 1.0 {
      if k in kv && KvWins(fields, k, kv[k]) {
        assert PlausibleHit(kv[k]);
      }
    }
  }

  /** The scan reports only fields that have patterns in any table the text extractor builds. */
  lemma ScanKeysHavePatterns(text: string, cfg: Option<PatternTable>)
    ensures KvScan(text).Keys <= TextPatterns(cfg).Keys
  {
    LabelKeysAreDefaultKeys();
  }

  /** The extraction with a given pattern table: pass 1 over the normalised text, then the key/value
      override from the scan of the raw text. */
  function ExtractWith(fullText: string, table: PatternTable, search: Searcher, acquiredMeta: Meta, digest: string)
    : (r: Result<ExtractionResult>)
    ensures r.Success? <==> CapturesSucceed(table, Normalize(fullText), search)
  {
    var text := Normalize(fullText);
    if !CapturesSucceed(table, text, search) then Failure("no such group")
    else
      var fields := ApplyKv(Pass1(table, text, search), KvScan(fullText));
      Success(ExtractionResult(fields, Some(digest), acquiredMeta["contains_axa_xl" := MetaBool(ContainsAxaXl(fullText))]))
  }

  /** `TextPDFExtractor.extract` after text acquisition. `fullText` and `acquiredMeta` are what the text
      engines returned and `digest` is `str(hash(full_text))`. Fails exactly when a matching pattern
      has no group 1; otherwise every pattern key gets an entry, and the metadata is the acquisition's
      plus the AXA XL flag of the raw text. */
  function ExtractFromText(fullText: string, cfg: Option<PatternTable>, search: Searcher, acquiredMeta: Meta, digest: string)
    : (r: Result<ExtractionResult>)
    ensures r.Success? <==> CapturesSucceed(TextPatterns(cfg), Normalize(fullText), search)
    ensures r.Success? ==>
      && r.value.fields.Keys == TextPatterns(cfg).Keys
      && WellFormedFields(r.value.fields)
      && (forall k :: k in r.value.fields ==> r.value.fields[k].source == Source)
      && r.value.textDigest == Some(digest)
      && r.value.docMeta == acquiredMeta["contains_axa_xl" := MetaBool(ContainsAxaXl(fullText))]
  {
    var table := TextPatterns(cfg);
    var r := ExtractWith(fullText, table, search, acquiredMeta, digest);
    if r.Failure? then r
    else
      ScanKeysHavePatterns(fullText, cfg);
      ExtractWithShape(fullText, table, search, acquiredMeta, digest);
      r
  }

  /** With a table that covers every key the scan can report, a successful extraction has an entry
      for exactly the table's keys, each well formed and from this strategy. */
  lemma ExtractWithShape(fullText: string, table: PatternTable, search: Searcher, acquiredMeta: Meta, digest: string)
    requires CapturesSucceed(table, Normalize(fullText), search)
    requires KvScan(fullText).Keys <= table.Keys
    ensures var r := ExtractWith(fullText, table, search, acquiredMeta, digest);
      && r.Success?
      && r.value.fields.Keys == table.Keys
      && WellFormedFields(r.value.fields)
      && (forall k :: k in r.value.fields ==> r.value.fields[k].source == Source)
      && r.value.textDigest == Some(digest)
      && r.value.docMeta == acquiredMeta["contains_axa_xl" := MetaBool(ContainsAxaXl(fullText))]
  {
    var p := Pass1(table, Normalize(fullText), search);
    var kv := KvScan(fullText);
    ExtractFields(fullText, table, search, acquiredMeta, digest);
    OverrideKeepsKeys(p, kv);
    var fields := ApplyKv(p, kv);
    forall k | k in fields ensures fields[k].source == Source {
      if k in kv && KvWins(p, k, kv[k]) {
        assert fields[k] == KvField(k, kv[k]);
      } else {
        assert fields[k] == p[k];
      }
    }
  }

  /** A successful extraction: pass 1 on the normalised text, overridden by the scan of the raw text,
      with the digest and the metadata set. */
  lemma ExtractFields(fullText: string, table: PatternTable, search: Searcher, acquiredMeta: Meta, digest: string)
    requires CapturesSucceed(table, Normalize(fullText), search)
    ensures var r := ExtractWith(fullText, table, search, acquiredMeta, digest);
      && r.Success?
      && r.value.fields == ApplyKv(Pass1(table, Normalize(fullText), search), KvScan(fullText))
      && r.value.textDigest == Some(digest)
      && r.value.docMeta == acquiredMeta["contains_axa_xl" := MetaBool(ContainsAxaXl(fullText))]
  {
  }

  /** A winning candidate is what the override writes. */
  lemma ApplyKvWinner(fields: map<string, FieldValue>, kv: map<string, (string, real)>, f: string, h: (string, real))
    requires f in kv && kv[f] == h && KvWins(fields, f, h)
    ensures f in ApplyKv(fields, kv) && ApplyKv(fields, kv)[f] == KvField(f, h)
  {
  }

  /** A non-empty candidate more confident than the current entry, if any, wins. */
  lemma KvWinsAbove(fields: map<string, FieldValue>, f: string, h: (string, real))
    requires h.0 != [] && (f in fields ==> fields[f].confidence < h.1)
    ensures KvWins(fields, f, h)
  {
  }

  /** With any pattern table, a scan candidate more confident than pass 1 becomes the field's entry. */
  lemma KvOverrideWinsWith(fullText: string, table: PatternTable, search: Searcher, acquiredMeta: Meta, digest: string,
                           f: string, h: (string, real))
    requires CapturesSucceed(table, Normalize(fullText), search)
    requires f in KvScan(fullText) && KvScan(fullText)[f] == h && h.0 != []
    requires var p := Pass1(table, Normalize(fullText), search); f in p ==> p[f].confidence < h.1
    ensures var r := ExtractWith(fullText, table, search, acquiredMeta, digest);
      r.Success? && f in r.value.fields && r.value.fields[f] == KvField(f, h)
  {
    var p := Pass1(table, Normalize(fullText), search);
    KvWinsAbove(p, f, h);
    ApplyKvWinner(p, KvScan(fullText), f, h);
    ExtractFields(fullText, table, search, acquiredMeta, digest);
  }

  /** A scan candidate more confident than pass 1 becomes the field's entry, marked as found by the scan. */
  lemma KvOverrideWins(fullText: string, cfg: Option<PatternTable>, search: Searcher, acquiredMeta: Meta, digest: string,
                       f: string, h: (string, real))
    requires CapturesSucceed(TextPatterns(cfg), Normalize(fullText), search)
    requires f in KvScan(fullText) && KvScan(fullText)[f] == h && h.0 != []
    requires var p := Pass1(TextPatterns(cfg), Normalize(fullText), search); f in p ==> p[f].confidence < h.1
    ensures var r := ExtractFromText(fullText, cfg, search, acquiredMeta, digest);
      r.Success? && f in r.value.fields && r.value.fields[f] == KvField(f, h)
  {
    KvOverrideWinsWith(fullText, TextPatterns(cfg), search, acquiredMeta, digest, f, h);
    ExtractFromTextIsWith(fullText, cfg, search, acquiredMeta, digest);
  }

  /** The extractor runs the extraction with the table it builds from the configuration. */
  lemma ExtractFromTextIsWith(fullText: string, cfg: Option<PatternTable>, search: Searcher, acquiredMeta: Meta, digest: string)
    ensures ExtractFromText(fullText, cfg, search, acquiredMeta, digest) == ExtractWith(fullText, TextPatterns(cfg), search, acquiredMeta, digest)
  {
  }

  /** Every field with a value after pass 1 still has one in the result, at no lower confidence. */
  lemma ExtractKeepsPass1(fullText: string, cfg: Option<PatternTable>, search: Searcher, acquiredMeta: Meta, digest: string, k: string)
    requires CapturesSucceed(TextPatterns(cfg), Normalize(fullText), search)
    requires k in TextPatterns(cfg)
    requires Pass1(TextPatterns(cfg), Normalize(fullText), search)[k].value.Some?
    ensures var r := ExtractFromText(fullText, cfg, search, acquiredMeta, digest).value.fields;
      k in r && r[k].value.Some? &&
      r[k].confidence >= Pass1(TextPatterns(cfg), Normalize(fullText), search)[k].confidence
  {
    ApplyKvNeverWorse(Pass1(TextPatterns(cfg), Normalize(fullText), search), KvScan(fullText), k);
  }
}
