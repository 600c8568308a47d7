# Insurance form field extraction — a Dafny model

This project models the decision logic of the AXA XL PDF form extractor. It starts once a document's text is
available and covers five parts:

- **Field results and merging.** A result maps field names to `FieldValue`s (value, confidence, source,
  metadata) and carries document metadata and a text digest. Two results merge field by field: the higher
  confidence wins, and the earlier result wins ties. The document confidence is the mean clamped confidence
  of the fields that have a value.
- **The text extractor.** It builds the per-field pattern list: the defaults followed by the configured
  patterns, duplicates dropped. It normalises whitespace. Pass 1 keeps the first best-scoring capture, takes
  0.05 off when several patterns matched, and clamps to [0, 1]. A field-specific score judges each capture.
  A line-based key/value scan can then override a field's value. The extractor also flags whether the raw
  text mentions "AXA XL".
- **The OCR extractor's scoring half.** It uses the configured patterns or, failing those, the defaults.
  It keeps the last match. Its confidence is a flat 0.6 × 0.9.
- **The pipeline.** Extractors are tried in order. An exception becomes an error record. The results are
  left-folded with the merge and summarised by the aggregate confidence.
- **Configuration auto-selection.** This exists both in the Streamlit front end and in the batch command
  line. Each configuration is scored by confidence plus 0.2 × fill ratio, plus a boost when the file name
  hints at the configuration's form group. The first best score wins, and the top three form a leaderboard.

The regex engine is a parameter: `search(pattern, text, dotAll)` answers that the pattern does not
compile, that it does not match, or that it matches with an optional group 1. The fixed regexes of the
score, the label test, normalisation and the "AXA XL" flag are written out as character predicates.
Confidences are exact reals.

Modules, in dependency order:
- `Wrappers`: `Option` and `Result`.
- `Strings`: Python's `strip`, `split`, `splitlines`, `lower`, `in` and `join`, and run replacement.
- `Selection`: the first-maximum scans and the stable descending ranking.
- `Fields`: the data model, merge, fold and aggregate.
- `Patterns`: the default table, de-duplication and captures.
- `Scoring`: `_score`.
- `LabelScan`: `_kv_scan`.
- `TextStrategy`, `OcrStrategy`, `Pipeline`, `AutoSelect` and `Cli`.
- `Scenario`: a three-line sample document ("Policy Number: ABC-123456", "Claim Amount: $1,234.56",
  "Customer Name: Jane Doe"). Whatever the regex engine answers, the key/value scan alone decides these
  three fields of the text extractor's result.

Behaviour of the code that is easy to misread:
- **OCR confidence.** OCR captures are never scored. `conf = max(conf, 0.6)` starts from 0, so every
  OCR field that matched has exactly 0.6 × 0.9 = 0.54. Its value is the last match's capture.
- **Address continuation line.** At most one line is appended to an address: the line immediately after
  the value, and only when that line is non-empty and not label-like.
- **Key/value scan entries.** The value is checked for truthiness *before* whitespace runs are collapsed
  and it is stripped. A value that is only inner whitespace therefore becomes the entry `("", 0.1)`;
  `LabelScan.EmptyValueHit` gives such an input. No output changes, because the override ignores empty
  values.
- **Merge order.** Between two entries of equal confidence the earlier result's entry is kept, so the
  winner of a tie depends on the order. `Fields.MergeFieldsCommute` states that the field winners are
  order-independent with exactly that exception.

## Model

| member | source | states |
|---|---|---|
| Fields.MergeWith | src/axa_extractor/fields.py:23-34 | merged keys are the union; a key on one side keeps that entry unchanged; for a shared key the confidence is the max and self's entry survives ties; other's metadata overwrites self's; the digest is self's if truthy, else other's |
| Fields.MergeWithNoFields | src/axa_extractor/fields.py:24-33 | merging with a field-less result, on either side, leaves the field map identical |
| Fields.MergeFieldsCommute | src/axa_extractor/fields.py:24-31 | merge order changes no field winner except between two entries of equal confidence |
| Fields.MergeIdempotent | src/axa_extractor/fields.py:23-34 | a result merged with itself is unchanged |
| Fields.MergePreservesWellFormed | src/axa_extractor/fields.py:24-31 | merging keeps every entry filed under its own name with confidence in [0, 1] |
| Fields.FoldMerge | src/axa_extractor/pipeline.py:27-29 | the left fold's field keys and metadata keys are the union over all results |
| Fields.FoldMergePicksFirstBest | src/axa_extractor/pipeline.py:27-29 | each merged field is the entry of the first result holding the key with the highest confidence |
| Fields.FoldMergePreservesWellFormed | src/axa_extractor/pipeline.py:27-29 | the fold of well-formed results is well formed |
| Fields.FoldMergeIgnoresNoFields | src/axa_extractor/pipeline.py:20-29 | inserting a field-less result anywhere in the fold changes no field |
| Fields.AggregateConfidence | src/axa_extractor/fields.py:37-47 | the loop returns the mean of the clamped confidences of the valued fields (a reference definition over sets), a value in [0, 1], and 0 when no field has a value |
| Fields.MeanOfTwo | src/axa_extractor/fields.py:42-47 | with exactly two valued fields of confidence in [0, 1], the aggregate is their average |
| Fields.AggregateExample | tests/test_parsing.py:31-38 | confidences 0.9 and 0.8 plus an unvalued field aggregate to 0.85 |
| Patterns.FirstOccurrences | src/axa_extractor/extractors/text_pdf.py:66-73 | reference de-duplication: same elements, no repeats, never longer |
| Patterns.DedupLoopIsFirstOccurrences | src/axa_extractor/extractors/text_pdf.py:66-73 | the seen-set loop computes the reference de-duplication |
| Patterns.Dedup | src/axa_extractor/extractors/text_pdf.py:66-73 | the loop's result is the first-occurrence list |
| Patterns.FirstOccurrencesOfDistinct | src/axa_extractor/extractors/text_pdf.py:66-73 | a list without repeats is left unchanged |
| Patterns.DistinctPrefixKept | src/axa_extractor/extractors/text_pdf.py:61-73 | de-duplicating a repeat-free list followed by more patterns keeps that list as the prefix |
| Patterns.DefaultsDistinct | src/axa_extractor/extractors/text_pdf.py:9-41 | no default pattern list repeats a pattern |
| Patterns.EffectivePatterns | src/axa_extractor/extractors/text_pdf.py:56-73 | keys are default keys plus configured keys; each list is the de-duplicated defaults followed by the configured patterns |
| Patterns.EffectivePatternsShape | src/axa_extractor/extractors/text_pdf.py:58-73 | the defaults come first and in order, there are no repeats, and a pattern is present iff it is a default or configured one |
| Patterns.Captures | src/axa_extractor/extractors/text_pdf.py:84-91 | succeeds iff no matching pattern lacks a group 1; then exactly one stripped capture per matching pattern, each the group 1 of some matching pattern |
| Patterns.CapturesInOrder | src/axa_extractor/extractors/text_pdf.py:84-91 | the m-th capture is the stripped group 1 of the m-th pattern that matches with one, in pattern order, a repeated pattern contributing once per occurrence |
| Patterns.BadPatternSkipped | src/axa_extractor/extractors/text_pdf.py:85-88 | a pattern that does not compile can be removed without changing the captures |
| Scoring.Score | src/axa_extractor/extractors/text_pdf.py:117-144 | 0 exactly for a blank value; otherwise one of the per-field constants, in [0.4, 0.9], and at least 0.5 outside agent, claim type and form type |
| Scoring.ScoreByField | src/axa_extractor/extractors/text_pdf.py:117-144 | for each field, the high constant exactly when the stripped value has the field's shape and the low one otherwise (policy 0.9/0.6, dates 0.85/0.5, amount 0.85/0.5, name 0.8/0.5, address 0.75/0.5 on a digit plus a street word, agent, claim type and form type 0.6/0.4 on length ≥ 3); 0.5 for an unknown field; 0 for a blank value |
| Scoring.ScorePolicyExample | tests/test_parsing.py:27 | "ABC-123456" scores 0.9 as a policy number |
| Scoring.ScoreAmountExample | tests/test_parsing.py:28 | "$123.00" scores 0.85 as a claim amount |
| Scoring.ScoreNameExample | tests/test_parsing.py:29 | "Jane Doe" scores 0.8 as a customer name |
| LabelScan.StrippedLabelLine | src/axa_extractor/extractors/text_pdf.py:209-210 | on a stripped line the label test holds iff the line ends with ':', '#' or '-' |
| LabelScan.Lines | src/axa_extractor/extractors/text_pdf.py:194 | the scan's lines are the stripped `splitlines` pieces |
| LabelScan.AfterSeparator | src/axa_extractor/extractors/text_pdf.py:217 | none iff the line has no separator; otherwise the text after the first one |
| LabelScan.NextNonBlank | src/axa_extractor/extractors/text_pdf.py:223-225 | the first non-blank line at or after the start, with everything skipped blank |
| LabelScan.RawValue | src/axa_extractor/extractors/text_pdf.py:216-230 | a non-blank remainder after the first separator is taken stripped; otherwise the first non-blank later line when it is not label-like, for an address joined with the next line when that one is non-empty and not label-like and then stripped of commas and spaces; otherwise nothing |
| LabelScan.KvConfidence | src/axa_extractor/extractors/text_pdf.py:234 | 0.1 for a blank value, otherwise exactly the score plus 0.1, in [0.5, 1] |
| LabelScan.Hit | src/axa_extractor/extractors/text_pdf.py:212-234 | a line yields a candidate iff it mentions a keyword of the field and gives a truthy raw value; the candidate is that value with runs of two or more whitespace characters collapsed and then stripped, at `KvConfidence` of the cleaned value; so it is non-empty with confidence in [0.5, 1], or empty with confidence 0.1 |
| LabelScan.HitCases | src/axa_extractor/extractors/text_pdf.py:212-233 | a line yields a candidate iff it mentions a keyword of the field and gives a truthy raw value |
| LabelScan.HitsUpTo | src/axa_extractor/extractors/text_pdf.py:212-237 | the candidates of the first n lines, in line order, one per yielding line: the m-th is the candidate of the m-th line that yields one; all have the candidate shape |
| LabelScan.HitLines | src/axa_extractor/extractors/text_pdf.py:212-234 | the lines among the first n that yield a candidate, increasing, each listed line yielding one and every yielding line listed |
| LabelScan.HitsUpToContents | src/axa_extractor/extractors/text_pdf.py:212-237 | a pair is among the candidates of the first n lines iff one of those lines yields it |
| LabelScan.FieldBest | src/axa_extractor/extractors/text_pdf.py:235-237 | none iff there is no candidate; otherwise the first candidate of highest confidence |
| LabelScan.KvScan | src/axa_extractor/extractors/text_pdf.py:192-238 | a field is reported iff it has a candidate; its entry is the field's first best candidate and has that shape |
| LabelScan.EmptyValueCandidate | src/axa_extractor/extractors/text_pdf.py:226-230 | for the lines "Address", ",\t,", "," the joined address strips to a lone tab |
| LabelScan.EmptyValueHit | src/axa_extractor/extractors/text_pdf.py:232-234 | that lone tab passes the truthiness test and is recorded as ("", 0.1) |
| Strings.Strip | src/axa_extractor/extractors/text_pdf.py:91 | empty iff the input is all whitespace; the ends are not whitespace |
| Strings.StripSlice | src/axa_extractor/extractors/text_pdf.py:91 | the result is a contiguous slice of the input with only whitespace cut on either side, empty iff the input is blank, with non-whitespace ends |
| Strings.TrimBySlice | src/axa_extractor/extractors/text_pdf.py:230 | `strip(chars)` returns a contiguous slice of the input with only dropped characters cut on either side |
| Strings.StripUnchanged | src/axa_extractor/extractors/text_pdf.py:91 | a non-empty string with non-whitespace ends is its own strip |
| Strings.WordsOfBlank | src/axa_extractor/extractors/text_pdf.py:210 | `split()` gives no words exactly for a blank string |
| Strings.WordsOfJoin | src/axa_extractor/extractors/text_pdf.py:210 | words joined by single spaces split back into exactly those words |
| Strings.WordsJoinIsCollapsed | src/axa_extractor/extractors/text_pdf.py:135 | joining `split()`'s words with single spaces equals collapsing every whitespace run to one space and stripping, on every input |
| Strings.SplitLines | src/axa_extractor/extractors/text_pdf.py:194 | no piece contains a line boundary; no pieces iff empty text |
| Strings.SplitLinesJoin | src/axa_extractor/extractors/text_pdf.py:194 | for "\n"-only text that does not end with one, joining the lines with "\n" gives the text back |
| Strings.SplitLinesOfJoin | src/axa_extractor/extractors/text_pdf.py:194 | lines free of line boundaries, the last non-empty, joined with "\n" split back into exactly those lines |
| Strings.ReplaceRuns | src/axa_extractor/extractors/text_pdf.py:188-189 | never longer, no new characters except spaces, no class character left at threshold 1, no double space when runs of spaces are collapsed |
| Strings.ReplaceRunsSplit | src/axa_extractor/extractors/text_pdf.py:188-189 | a character outside the class is kept in place and splits the replacement: the parts on either side are replaced independently |
| Strings.ReplaceRunsLoneRun | src/axa_extractor/extractors/text_pdf.py:188-189 | a maximal run of class characters becomes one space when it reaches the threshold and is kept otherwise |
| TextStrategy.Normalize | src/axa_extractor/extractors/text_pdf.py:184-190 | never longer; no non-breaking space, tab or carriage return; no two adjacent spaces |
| TextStrategy.ReplaceNbsp | src/axa_extractor/extractors/text_pdf.py:186 | every no-break space becomes a space and every other character is kept |
| TextStrategy.JoinHyphenBreaks | src/axa_extractor/extractors/text_pdf.py:187 | never longer; every character comes from the input |
| TextStrategy.JoinHyphenBreaksJoins | src/axa_extractor/extractors/text_pdf.py:187 | the first "-\n" of a text is deleted, joining the two lines, whatever other hyphens precede it; the rest is treated the same way |
| TextStrategy.HyphenJoinExample | src/axa_extractor/extractors/text_pdf.py:187 | "x-y-\nz" becomes "x-yz": a hyphen inside a line stays |
| TextStrategy.JoinHyphenBreaksKeeps | src/axa_extractor/extractors/text_pdf.py:187 | text with no "-\n" is unchanged |
| TextStrategy.ReplaceRunsKeeps | src/axa_extractor/extractors/text_pdf.py:188-189 | text with no run reaching the threshold is unchanged |
| TextStrategy.NormalizeKeepsNormalForm | src/axa_extractor/extractors/text_pdf.py:184-190 | normalisation is the identity on text already in normal form |
| TextStrategy.Pass1Field | src/axa_extractor/extractors/text_pdf.py:80-101 | no value iff every capture is blank (confidence 0); otherwise the first capture of maximal score, whose score loses 0.05 exactly when more than one pattern matched, a confidence in [0.35, 0.9] |
| TextStrategy.Pass1 | src/axa_extractor/extractors/text_pdf.py:77-101 | every pattern key has an entry, well formed, from the text extractor, valueless iff all its captures are blank, and equal to pass 1 over that key's captures |
| TextStrategy.ApplyKv | src/axa_extractor/extractors/text_pdf.py:104-108 | keys gain only non-empty candidates; a winning candidate replaces the entry; all other entries are untouched |
| TextStrategy.KvField | src/axa_extractor/extractors/text_pdf.py:108 | a scan entry becomes a text-extractor field with its value and confidence, and metadata exactly {"method": "kv"} |
| TextStrategy.ApplyKvNeverWorse | src/axa_extractor/extractors/text_pdf.py:104-108 | an entry with a value keeps one, at no lower confidence |
| TextStrategy.ApplyKvIdempotent | src/axa_extractor/extractors/text_pdf.py:104-108 | applying the same candidates twice equals applying them once |
| TextStrategy.OverrideKeepsKeys | src/axa_extractor/extractors/text_pdf.py:104-108 | candidates for existing keys add no key and keep every confidence in [0, 1] |
| TextStrategy.ScanKeysHavePatterns | src/axa_extractor/extractors/text_pdf.py:195-205 | every field the scan can report has patterns in any table the extractor builds |
| TextStrategy.TextPatterns | src/axa_extractor/extractors/text_pdf.py:56-59 | the table's keys are the default keys plus the configured ones |
| TextStrategy.ExtractWith | src/axa_extractor/extractors/text_pdf.py:77-115 | with any pattern table, succeeds iff no matching pattern on the normalised text lacks group 1 |
| TextStrategy.ExtractFields | src/axa_extractor/extractors/text_pdf.py:77-115 | with any pattern table, a successful extraction's fields are pass 1 on the normalised text overridden by the scan of the raw text, with the digest and metadata set |
| TextStrategy.ExtractWithShape | src/axa_extractor/extractors/text_pdf.py:55-115 | with a table covering the scan's keys, the result has an entry for exactly the table's keys, each well formed and from this strategy |
| TextStrategy.ExtractFromText | src/axa_extractor/extractors/text_pdf.py:55-115 | fails iff a matching pattern lacks group 1; otherwise every pattern key has a well-formed "text" entry, the digest is set and the metadata is the acquisition's plus the AXA XL flag of the raw text |
| TextStrategy.ExtractKeepsPass1 | src/axa_extractor/extractors/text_pdf.py:96-108 | a field valued by pass 1 is still valued in the result, at no lower confidence |
| TextStrategy.KvOverrideWinsWith | src/axa_extractor/extractors/text_pdf.py:104-108 | with any pattern table, a non-empty scan entry more confident than pass 1's becomes the field's entry, with the method "kv" |
| TextStrategy.KvOverrideWins | src/axa_extractor/extractors/text_pdf.py:104-108 | a non-empty scan entry more confident than pass 1's entry becomes the field's entry in the result, with the method "kv" |
| Scenario.SampleLines | src/axa_extractor/extractors/text_pdf.py:194 | the three sample lines joined by "\n" come back from the scan's line split unchanged |
| Scenario.ValueAfterLabel | src/axa_extractor/extractors/text_pdf.py:217-220 | a line whose first separator is followed by one space and a value without surrounding whitespace yields that value |
| Scenario.CleanValue | src/axa_extractor/extractors/text_pdf.py:232-233 | a value without doubled or surrounding whitespace survives the clean-up unchanged |
| Scenario.HitOfClean | src/axa_extractor/extractors/text_pdf.py:212-234 | a line with a clean value yields that value at the scan confidence, or nothing; when it mentions the field, that value |
| Scenario.BestIs | src/axa_extractor/extractors/text_pdf.py:235-237 | a candidate strictly more confident than every other candidate is the field's entry |
| Scenario.BestOfValues | src/axa_extractor/extractors/text_pdf.py:212-237 | when every line yields a clean value and the mentioning line's value is strictly most confident, it is the field's entry |
| Scenario.LabelMentions | src/axa_extractor/extractors/text_pdf.py:213-215 | a line starting with a label whose lower case is a keyword of the field mentions the field |
| Scenario.PolicyScores | src/axa_extractor/extractors/text_pdf.py:117-124 | as a policy number "ABC-123456" scores 0.9, "$1,234.56" and "Jane Doe" 0.6 |
| Scenario.AmountScores | src/axa_extractor/extractors/text_pdf.py:117-132 | as a claim amount "$1,234.56" scores 0.85, the other two values 0.5 |
| Scenario.NameScores | src/axa_extractor/extractors/text_pdf.py:117-135 | as a customer name "Jane Doe" scores 0.8, the other two values 0.5 |
| Scenario.ScanOfSampleLines | src/axa_extractor/extractors/text_pdf.py:192-238 | on the sample lines the scan reports "ABC-123456" at 1, "$1,234.56" at 0.95 and "Jane Doe" at 0.9 |
| Scenario.NamePass1AtMost | src/axa_extractor/extractors/text_pdf.py:80-101 | pass 1 never gives a customer name more than 0.8 |
| Scenario.Pass1BelowRow | src/axa_extractor/extractors/text_pdf.py:80-101 | pass 1 gives each of the three fields less than the scan's confidence for it |
| Scenario.SampleLinesDecide | src/axa_extractor/extractors/text_pdf.py:55-115 | for any text with the sample's lines and any pattern table, the result holds the three values from the scan, at 1, 0.95 and 0.9, marked "kv" |
| Scenario.SampleDocument | src/axa_extractor/extractors/text_pdf.py:55-115 | for the three-line sample, whatever the patterns capture, the result holds the three values from the scan, at 1, 0.95 and 0.9, marked "kv" |
| OcrStrategy.OcrField | src/axa_extractor/extractors/ocr_pdf.py:45-57 | no value iff nothing matched; otherwise the last match's capture, blank or not, at confidence 0.54 |
| OcrStrategy.OcrExtract | src/axa_extractor/extractors/ocr_pdf.py:33-59 | not ready gives an empty result; otherwise fails iff OCR fails or a match lacks group 1, and on success every pattern key of the chosen table has the "ocr" entry built from its last capture, valued iff some pattern matched, at 0.54 when valued and 0 otherwise; the metadata is exactly {"ocr": true} |
| OcrStrategy.OcrExtractWith | src/axa_extractor/extractors/ocr_pdf.py:33-59 | the same over any pattern table: every entry is the OCR field of that key's captures, at 0.54 when valued and 0 otherwise |
| OcrStrategy.OcrPatterns | src/axa_extractor/extractors/ocr_pdf.py:41 | the configured table when there is one, replacing the defaults; the defaults otherwise |
| OcrStrategy.OcrPatternsWithinText | src/axa_extractor/extractors/ocr_pdf.py:41 | under the same configuration every OCR pattern of a field is also one of the text extractor's patterns for that field |
| Pipeline.DefaultExtractors | src/axa_extractor/pipeline.py:10-11 | no list or an empty list means text then OCR; any other list is kept |
| Pipeline.ExtractOutcome | src/axa_extractor/pipeline.py:18 | the text extractor raises on an unreadable text layer and otherwise fails iff a matching pattern lacks group 1; the OCR extractor gives an empty result without its stack and raises when OCR raises; other extractors give what they return |
| Pipeline.ErrorRecord | src/axa_extractor/pipeline.py:20-22 | no fields, no digest, and metadata holding exactly the error message and the extractor's class name |
| Pipeline.ErrorRecordAddsNoField | src/axa_extractor/pipeline.py:20-29 | merged on either side, an error record changes no field, and as the later result its error and extractor name win |
| Pipeline.CanProcess | src/axa_extractor/extractors/text_pdf.py:47-53 | text accepts iff the text layer was read and is not blank; OCR accepts iff ready |
| Pipeline.Attempt | src/axa_extractor/pipeline.py:16-22 | nothing iff the extractor declines; its result when both calls succeed; an error record when either raises |
| Pipeline.Collect | src/axa_extractor/pipeline.py:14-22 | the results are, in extractor order, the outcome of each extractor that does not decline: its result, or an error record when a call raises; at most one per extractor; none iff every extractor declines |
| Pipeline.CollectWithIsSomes | src/axa_extractor/pipeline.py:15-22 | the loop keeps exactly the records its iterations produce, in order |
| Pipeline.CollectAppend | src/axa_extractor/pipeline.py:15-22 | collecting over two lists in a row concatenates their results |
| Pipeline.Run | src/axa_extractor/pipeline.py:13-32 | "No extractor available" when nothing was collected; otherwise the fold's fields and metadata with the mean valued-field confidence; confidence always in [0, 1] |
| Pipeline.FailingExtractorChangesNoField | src/axa_extractor/pipeline.py:20-29 | a raising extractor leaves exactly its error record in the results and changes no merged field |
| Pipeline.CollectWellFormed | src/axa_extractor/pipeline.py:15-22 | well-formed contributions give well-formed results |
| Pipeline.BuiltInsWellFormed | src/axa_extractor/pipeline.py:11-29 | the default extractors' results and their merge are well formed |
| Pipeline.OcrUnavailable | src/axa_extractor/pipeline.py:11-25 | without OCR the default pipeline is the text extractor alone; with a blank or unreadable text layer as well it collects nothing |
| Pipeline.OcrCannotBeatConfidentText | src/axa_extractor/fields.py:29-31 | an OCR result never displaces a text field of confidence 0.54 or more |
| Selection.FirstMax | app_streamlit.py:103 | an index of a maximal key with every earlier key strictly smaller |
| Selection.FirstAbove | src/axa_extractor/extractors/text_pdf.py:81-95 | none iff no key exceeds the floor; otherwise the first maximal index, above the floor |
| Selection.FirstMaxUnique | app_streamlit.py:103 | only the first maximum meets that description |
| Selection.FirstMaxSameKeys | scripts/cli.py:104 | lists with equal keys position by position have the same first maximum |
| Selection.RankFrom | app_streamlit.py:107 | a permutation of the positions in descending key order, ties in position order |
| Selection.RankHeadIsFirstMax | app_streamlit.py:103-107 | the head of the ranking is the first maximum |
| Selection.SomeIndices | src/axa_extractor/extractors/text_pdf.py:235-237 | the positions holding a value, increasing, each holding one and none left out |
| Selection.Somes | src/axa_extractor/extractors/text_pdf.py:84-91 | the values of a list of options in order: one per position holding a value, the m-th from the m-th such position |
| Selection.SomesCons | src/axa_extractor/extractors/text_pdf.py:84-91 | listing the values of an option followed by more lists its value, if any, then theirs |
| AutoSelect.FilledNames | app_streamlit.py:49-51 | the fields whose value, stripped, is not empty |
| AutoSelect.ScoreResult | app_streamlit.py:45-56 | filled ≤ total = number of fields; the score is the confidence plus 0.2 × filled/total, and the confidence alone without fields |
| AutoSelect.ScoreGrowsWithFilled | app_streamlit.py:45-56 | of two outputs with equal confidence and field count, the one whose filled fields include the other's scores at least as high |
| AutoSelect.GroupOf | app_streamlit.py:71-77 | claim if the lower-cased label contains "claim", else policy, else customer for "customer" or "info" |
| AutoSelect.Triggers | app_streamlit.py:80-83 | the keywords that occur in the name, in keyword order, one per keyword position: the m-th trigger is the m-th occurring keyword |
| AutoSelect.TriggerScanContents | app_streamlit.py:80-83 | the keyword loop keeps, in order, one entry per keyword position whose keyword occurs in the name, and nothing else |
| AutoSelect.BoostFor | app_streamlit.py:84-86 | 0 without triggers, 0.05 for one, 0.075 for two, 0.1 for three or more |
| AutoSelect.BoostMonotone | app_streamlit.py:86 | more triggers never give a smaller boost |
| AutoSelect.FilenameHintBoost | app_streamlit.py:59-87 | no group gives (0, []); otherwise the group's triggers in the lower-cased file name, with a boost that is 0 iff none triggered |
| AutoSelect.HintExample | app_streamlit.py:59-87 | "property-loss-2024.pdf" under "claim_form.json" triggers "loss" and "property-loss" for 0.075 |
| AutoSelect.BoostTextRounds | app_streamlit.py:98 | the boost text is "0." and two digits within half a hundredth of the boost |
| AutoSelect.Reason | app_streamlit.py:98 | empty iff nothing triggered; otherwise it starts with "+", the boost text and " filename match: " |
| AutoSelect.ReasonNamesTriggers | app_streamlit.py:98 | the reason names every trigger |
| AutoSelect.Evaluate | app_streamlit.py:92-99 | a candidate's score is its result's score plus the hint boost, within 0.3 above its confidence; the reason is the text built from the triggered keywords, empty iff nothing triggered |
| AutoSelect.Candidates | app_streamlit.py:91-99 | one candidate per configuration, in configuration order, each that configuration's evaluation |
| AutoSelect.SummaryMeta | app_streamlit.py:105 | exactly the keys selected_config, score, filled, total and reason, holding the candidate's name, score, counts and reason |
| AutoSelect.SummaryOfEvaluate | app_streamlit.py:92-105 | an evaluated configuration's summary holds its name, its boosted score, its result's filled and total counts, and the reason built from the triggered keywords, empty iff nothing triggered |
| AutoSelect.Annotated | app_streamlit.py:109 | fields and confidence kept; the summary overwrites the result's metadata, other keys preserved |
| AutoSelect.TopOfRanking | app_streamlit.py:107 | the first positions of the ranking are distinct, ranked, and ahead of every position left out |
| AutoSelect.Leaderboard | app_streamlit.py:107 | min(3, n) entries forming a stable top-3 by score, the first being the first best candidate |
| AutoSelect.LeaderboardDescending | app_streamlit.py:107 | leaderboard scores never increase |
| AutoSelect.Choose | app_streamlit.py:103-109 | the first best-scoring candidate's annotated result and summary, and the leaderboard |
| AutoSelect.RunAutoConfigs | app_streamlit.py:90-110 | no configurations gives the "No configs found" output; otherwise the first best-scoring candidate's annotated result and summary, and the leaderboard |
| Cli.Basename | scripts/cli.py:100 | a suffix of the path without '/', preceded by '/' when shorter than the path |
| Cli.CliEvaluate | scripts/cli.py:96-103 | a candidate's score is its result's score plus the hint boost |
| Cli.CliCandidates | scripts/cli.py:95-103 | one candidate per configuration, in configuration order, each that configuration's evaluation |
| Cli.SameCandidate | scripts/cli.py:96-107 | the command line and the front end give a configuration the same score, the same result and the same summary |
| Cli.CliAutoSelect | scripts/cli.py:93-107 | the first best-scoring configuration's result, its metadata overwritten by the selection summary |
| Cli.CliAutoAgreesWithApp | scripts/cli.py:93-107 | the command line picks and annotates exactly what the Streamlit selector returns |
| Cli.CliManual | scripts/cli.py:108-112 | fields kept; the summary with the result's own score, filled and total counts, reason "manual config" and the config's base name (none for an empty path) overwrites the metadata |
| Cli.ProcessDocument | scripts/cli.py:93-112 | auto mode iff asked for with configurations present, manual mode otherwise; either way the selection keys are present |
| Cli.FilledMissing | scripts/cli.py:118-128 | filled and missing partition the field names; filled means a non-blank value |
| Cli.ChecklistMatchesScore | scripts/cli.py:118-128 | the checklist's filled count is the score's, and both lists together count all fields |
| Cli.Shortlist | scripts/cli.py:130-134 | at most n items are joined by ", "; otherwise the first n, then ", ...(+k more)" where k is written without leading zeros and reads back as the number left out |
| Strings.NatToStringRoundTrip | scripts/cli.py:133 | the decimal rendering of the hidden count reads back exactly |

## Left out

- PDF text acquisition (`_extract_text_any`, src/axa_extractor/extractors/text_pdf.py:146-182) is an input.
  The text and its metadata, or the exception, are the `textLayer` of `Pipeline.Engines`; the two reads of
  `can_process` and `extract` see the same outcome.
- OCR import probing and rendering (src/axa_extractor/extractors/ocr_pdf.py:10-28, 61-78) are inputs: a
  readiness flag and the OCR text or its exception.
- Regular-expression semantics for the default and configured patterns are the `search` parameter. A
  match without group 1 stands for both ways `m.group(1).strip()` raises, with the single message
  "no such group".
- `str(hash(text))` is a parameter. Python's string hash is randomised per process.
- The configuration dictionary is reduced to its "patterns" entry.
  - `Pipeline.Extract` is given that entry, or none.
  - The front ends' `load_config` is folded into the `run` function of `AutoSelect`: configuration
    path → pipeline output.
  - Directory listing and sorting (`list_config_files`) and argument parsing are left out; the
    configuration list is an input.
- Storage (src/axa_extractor/storage.py, scripts/db_summary.py) and the Streamlit page, caching, uploads
  and edit/save path (app_streamlit.py:12-42, 113-203) are left out; they are persistence and UI.
- The command line's printing is left out, and so are its directory walk and its `sorted()` before
  `shortlist`.
  - `Cli.FilledMissing` returns sets, not sorted lists.
  - `Cli.Shortlist` takes any list.
- Floating point: exact reals replace binary floats.
  - `round(score, 3)` in the summary and leaderboard is not applied.
  - `{boost:.2f}` is written out for the three boosts that can occur ("0.05", "0.08", "0.10").
- Unicode: `lower()`, `IGNORECASE`, `\d`, and `\w` and `\b` are modelled on ASCII. Whitespace (`strip`,
  `split`, `\s`) follows Python's full `str.isspace` set, and line boundaries follow `str.splitlines`.
  - For the address "1 Dré" the model finds the street word "Dr" followed by a word boundary and scores
    0.75. Python's `\b` treats "é" as a word character, so no boundary follows "Dr" and the code scores 0.5.
- The abstract `BaseExtractor` (src/axa_extractor/extractors/base.py) is replaced by the closed
  `Pipeline.Extractor` type: the two built-ins plus extractors described by what their two calls return
  or raise.
- Dictionary iteration order is not modelled, because maps have none.
  - It cannot change a result: fields of the pattern table and of the key/value scan never influence
    each other.
  - Only which missing-group exception is raised first could differ, and the model has one message.
- `Scenario.SampleDocument`: states only the three fields the scan decides. The other fields, and so the
  document confidence, depend on what the regex engine captures, which the model leaves open.
- `LabelScan.KvScan`: states that an entry is either non-empty with confidence in [0.5, 1] or empty with
  confidence 0.1, not that every entry is non-empty. The code allows the empty case, as
  `LabelScan.EmptyValueHit` shows.
- Strip: the statement that the result is a contiguous slice of the input with only whitespace cut off is
  carried by `Strings.StripSlice` (and `Strings.TrimBySlice` for `strip(chars)`), not by `Strip` itself,
  so that the many proofs that use `Strip` stay small.
- Words: its contract says only that every element is a word. What the split returns is carried by
  `Strings.WordsJoinIsCollapsed` (the words joined by single spaces are the text with every
  whitespace run collapsed to one space and stripped) and `Strings.WordsOfJoin` (that join splits
  back into the words), which together fix the result on every input; `Strings.WordsOfBlank` states
  the blank case on its own.
- ReplaceRuns: which characters survive and how runs collapse is carried by `Strings.ReplaceRunsSplit`
  and `Strings.ReplaceRunsLoneRun`, which together fix the result, not by `ReplaceRuns` itself.
- Score: which constant a field and a value shape get is carried by `Scoring.ScoreByField`, not by
  `Score` itself, for the same reason as `Strip`.
- Captures: the order of the captures and which pattern each comes from are carried by
  `Patterns.CapturesInOrder`, not by `Captures` itself.
- JoinHyphenBreaks: its contract gives only length and provenance. The deletion is stated by
  `TextStrategy.JoinHyphenBreaksJoins` for the first "-\n" of any text (hyphens elsewhere in the text
  before it are allowed) and by `TextStrategy.JoinHyphenBreaksKeeps` for text without one; together
  they fix the result on every input.
- Reason: its contract fixes the prefix and emptiness. That the rest names the triggers is
  `AutoSelect.ReasonNamesTriggers`, and the boost text is bounded by `AutoSelect.BoostTextRounds`.
