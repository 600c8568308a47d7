/** `OCRPDFExtractor`: the same field patterns run over OCR text, with a flat confidence per hit. */
module OcrStrategy {
  import opened Wrappers
  import opened Strings
  import opened Fields
  import opened Patterns
  import TextStrategy

  const Source: string := "ocr"

  /** Every OCR hit counts as 0.6, discounted by 0.9 when the field is stored. */
  const OcrBaseline: real := 0.6
  const OcrDiscount: real := 0.9

  /** One field from the stripped group-1 texts of its matching patterns, in pattern order: the value
      of the last match, blank or not, and confidence 0.54 when anything matched. */
  function OcrField(field: string, hits: seq<string>): (fv: FieldValue)
    ensures fv.name == field && fv.source == Source && fv.meta == map[]
    ensures fv.value.None? <==> |hits| == 0
    ensures |hits| > 0 ==> fv.value == Some(hits[|hits| - 1]) && fv.confidence == 0.54
    ensures |hits| == 0 ==> fv.confidence == 0.0
  {
    var conf := if |hits| == 0 then 0.0 else Max(0.0, OcrBaseline);
    FieldValue(field, if |hits| == 0 then None else Some(hits[|hits| - 1]), conf * OcrDiscount, Source, map[])
  }

  /** `(config or {}).get("patterns", DEFAULT_PATTERNS)`: configured patterns replace the defaults. */
  function OcrPatterns(cfg: Option<PatternTable>): (table: PatternTable)
    ensures cfg.None? ==> table == DefaultPatterns
    ensures cfg.Some? ==> table == cfg.value
  {
    if cfg.Some? then cfg.value else DefaultPatterns
  }

  /** The OCR extractor searches, for each field, a subset of the text extractor's patterns under the
      same configuration: the configured table replaces the defaults here, while the text extractor
      appends it to them. */
  lemma OcrPatternsWithinText(cfg: Option<PatternTable>)
    ensures OcrPatterns(cfg).Keys <= TextStrategy.TextPatterns(cfg).Keys
    ensures forall k, p :: k in OcrPatterns(cfg) && p in OcrPatterns(cfg)[k] ==> p in TextStrategy.TextPatterns(cfg)[k]
  {
    var c := if cfg.Some? then cfg.value else map[];
    forall k, p | k in OcrPatterns(cfg) && p in OcrPatterns(cfg)[k]
      ensures p in TextStrategy.TextPatterns(cfg)[k]
    {
      EffectivePatternsShape(c, k);
    }
  }

  /** The OCR pass succeeds when no matching pattern lacks a group 1 (DOTALL off). */
  predicate OcrCapturesSucceed(table: PatternTable, text: string, search: Searcher) {
    forall k :: k in table ==> Captures(table[k], text, search, false).Success?
  }

  /** `OCRPDFExtractor.extract` over a given pattern table. `ready` is whether the OCR stack imported,
      `ocrText` what rendering and recognition return (or their error), and `hash` stands for
      `str(hash(.))`. */
  function OcrExtractWith(ready: bool, ocrText: Result<string>, table: PatternTable, search: Searcher, hash: string -> string)
    : (r: Result<ExtractionResult>)
    ensures !ready ==> r == Success(EmptyResult(map[]))
    ensures ready && ocrText.Failure? ==> r.Failure?
    ensures ready && ocrText.Success? ==> (r.Success? <==> OcrCapturesSucceed(table, ocrText.value, search))
    ensures ready && r.Success? ==>
      && ocrText.Success?
      && r.value.fields.Keys == table.Keys
      && WellFormedFields(r.value.fields)
      && (forall k :: k in r.value.fields ==> (r.value.fields[k].source == Source &&
            (r.value.fields[k].value.Some? <==> MatchCount(table[k], ocrText.value, search, false) > 0) &&
            r.value.fields[k].confidence == (if r.value.fields[k].value.Some? then 0.54 else 0.0)))
      && (forall k :: k in r.value.fields ==>
            r.value.fields[k] == OcrField(k, Captures(table[k], ocrText.value, search, false).value))
      && r.value.textDigest == Some(hash(ocrText.value))
      && r.value.docMeta == map["ocr" := MetaBool(true)]
  {
    if !ready then Success(ExtractionResult(map[], None, map[]))
    else if ocrText.Failure? then Failure(ocrText.error)
    else
      var text := ocrText.value;
      if !OcrCapturesSucceed(table, text, search) then Failure("no such group")
      else
        var fields := map k | k in table :: OcrField(k, Captures(table[k], text, search, false).value);
        Success(ExtractionResult(fields, Some(hash(text)), map["ocr" := MetaBool(true)]))
  }

  /** `OCRPDFExtractor.extract` with the table `OcrPatterns` picks from the configuration. */
  function OcrExtract(ready: bool, ocrText: Result<string>, cfg: Option<PatternTable>, search: Searcher, hash: string -> string)
    : (r: Result<ExtractionResult>)
    ensures !ready ==> r == Success(EmptyResult(map[]))
    ensures ready && ocrText.Failure? ==> r.Failure?
    ensures ready && ocrText.Success? ==> (r.Success? <==> OcrCapturesSucceed(OcrPatterns(cfg), ocrText.value, search))
    ensures ready && r.Success? ==>
      && ocrText.Success?
      && r.value.fields.Keys == OcrPatterns(cfg).Keys
      && WellFormedFields(r.value.fields)
      && (forall k :: k in r.value.fields ==> (r.value.fields[k].source == Source &&
            (r.value.fields[k].value.Some? <==> MatchCount(OcrPatterns(cfg)[k], ocrText.value, search, false) > 0) &&
            r.value.fields[k].confidence == (if r.value.fields[k].value.Some? then 0.54 else 0.0)))
      && (forall k :: k in r.value.fields ==>
            r.value.fields[k] == OcrField(k, Captures(OcrPatterns(cfg)[k], ocrText.value, search, false).value))
      && r.value.textDigest == Some(hash(ocrText.value))
      && r.value.docMeta == map["ocr" := MetaBool(true)]
  {
    OcrExtractWith(ready, ocrText, OcrPatterns(cfg), search, hash)
  }
}
