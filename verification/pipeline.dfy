/** `ExtractionPipeline`: run each extractor that accepts the document, turn exceptions into error
    records, fold the results with `merge_with`, and report the aggregate confidence. */
module Pipeline {
  import opened Wrappers
  import opened Strings
  import opened Fields
  import opened Patterns
  import opened Selection
  import TextStrategy
  import OcrStrategy

  /** What the outside world gives the extractors for one document: the text layer the PDF engines
      read (or the exception they raised), whether the OCR stack imported, the OCR text (or the
      exception), the regex engine, and Python's string hash rendered with `str`. */
  datatype Engines = Engines(
    textLayer: Result<(string, Meta)>,
    ocrReady: bool,
    ocrText: Result<string>,
    search: Searcher,
    hash: string -> string)

  /** The two built-in extractors, and any other `BaseExtractor` given by its class name and by what
      its `can_process` and `extract` return or raise for the document at hand. */
  datatype Extractor =
    | TextExtractor
    | OcrExtractor
    | Custom(className: string, canProcess: Result<bool>, extract: Result<ExtractionResult>)

  /** `extractor.__class__.__name__`. */
  function ClassName(e: Extractor): string {
    match e
    case TextExtractor => "TextPDFExtractor"
    case OcrExtractor => "OCRPDFExtractor"
    case Custom(name, _, _) => name
  }

  /** `extractors or [TextPDFExtractor(), OCRPDFExtractor()]`: no list or an empty one means the built-ins. */
  function DefaultExtractors(given: Option<seq<Extractor>>): (es: seq<Extractor>)
    ensures given.Some? && given.value != [] ==> es == given.value
    ensures given.None? || given.value == [] ==> es == [TextExtractor, OcrExtractor]
    ensures es != []
  {
    if given.Some? && given.value != [] then given.value else [TextExtractor, OcrExtractor]
  }

  /** `can_process`: the text extractor accepts a document whose text layer is not blank (and swallows
      any exception as "no"); the OCR extractor accepts everything once its stack imported. */
  function CanProcess(e: Extractor, env: Engines): (r: Result<bool>)
    ensures e.TextExtractor? ==> r == Success(env.textLayer.Success? && !IsBlank(env.textLayer.value.0))
    ensures e.OcrExtractor? ==> r == Success(env.ocrReady)
  {
    match e
    case TextExtractor => Success(env.textLayer.Success? && Strip(env.textLayer.value.0) != [])
    case OcrExtractor => Success(env.ocrReady)
    case Custom(_, can, _) => can
  }

  /** `extract(file_bytes, config=config)`; `cfg` is the configuration's "patterns" entry, if any. */
  function Extract(e: Extractor, env: Engines, cfg: Option<PatternTable>): Result<ExtractionResult> {
    match e
    case TextExtractor =>
      if env.textLayer.Failure? then Failure(env.textLayer.error)
      else
        var (text, meta) := env.textLayer.value;
        TextStrategy.ExtractFromText(text, cfg, env.search, meta, env.hash(text))
    case OcrExtractor => OcrStrategy.OcrExtract(env.ocrReady, env.ocrText, cfg, env.search, env.hash)
    case Custom(_, _, ext) => ext
  }

  /** The record the pipeline keeps for an extractor that raised. */
  function ErrorRecord(message: string, extractor: string): (r: ExtractionResult)
    ensures r.fields == map[] && r.textDigest.None?
    ensures r.docMeta == map["error" := MetaStr(message), "extractor" := MetaStr(extractor)]
  {
    EmptyResult(map["error" := MetaStr(message), "extractor" := MetaStr(extractor)])
  }

  /** An error record adds no field, on either side of a merge, and as the later result its error
      and extractor name overwrite the earlier metadata. */
  lemma ErrorRecordAddsNoField(a: ExtractionResult, message: string, extractor: string)
    ensures MergeWith(a, ErrorRecord(message, extractor)).fields == a.fields
    ensures MergeWith(ErrorRecord(message, extractor), a).fields == a.fields
    ensures MergeWith(a, ErrorRecord(message, extractor)).docMeta["error"] == MetaStr(message)
    ensures MergeWith(a, ErrorRecord(message, extractor)).docMeta["extractor"] == MetaStr(extractor)
  {
    MergeWithNoFields(a, ErrorRecord(message, extractor));
  }

  /** What each extractor's `extract` gives: the text extractor raises when the text layer cannot be
      read and otherwise fails exactly when a matching pattern lacks group 1; the OCR extractor gives
      an empty result when its stack is missing and raises when OCR raises; any other extractor gives
      what it was described with. */
  lemma ExtractOutcome(e: Extractor, env: Engines, cfg: Option<PatternTable>)
    ensures e.TextExtractor? && env.textLayer.Failure? ==> Extract(e, env, cfg) == Failure(env.textLayer.error)
    ensures e.TextExtractor? && env.textLayer.Success? ==> (Extract(e, env, cfg).Success? <==>
      TextStrategy.CapturesSucceed(TextStrategy.TextPatterns(cfg), TextStrategy.Normalize(env.textLayer.value.0), env.search))
    ensures e.OcrExtractor? && !env.ocrReady ==> Extract(e, env, cfg) == Success(EmptyResult(map[]))
    ensures e.OcrExtractor? && env.ocrReady && env.ocrText.Failure? ==> Extract(e, env, cfg).Failure?
    ensures e.Custom? ==> Extract(e, env, cfg) == e.extract
  {
  }

  /** One iteration of the pipeline's loop: nothing when the extractor declines, its result when it
      accepts, an error record when either call raises. */
  function Attempt(e: Extractor, env: Engines, cfg: Option<PatternTable>): (r: Option<ExtractionResult>)
    ensures r.None? <==> CanProcess(e, env) == Success(false)
    ensures CanProcess(e, env).Failure? ==> r == Some(ErrorRecord(CanProcess(e, env).error, ClassName(e)))
    ensures CanProcess(e, env) == Success(true) && Extract(e, env, cfg).Success? ==> r == Some(Extract(e, env, cfg).value)
    ensures CanProcess(e, env) == Success(true) && Extract(e, env, cfg).Failure? ==>
      r == Some(ErrorRecord(Extract(e, env, cfg).error, ClassName(e)))
  {
    match CanProcess(e, env)
    case Failure(m) => Some(ErrorRecord(m, ClassName(e)))
    case Success(ok) =>
      if !ok then None
      else
        match Extract(e, env, cfg)
        case Failure(m) => Some(ErrorRecord(m, ClassName(e)))
        case Success(res) => Some(res)
  }

  /** The pipeline's step for one extractor, as a function value. */
  function AttemptOf(env: Engines, cfg: Option<PatternTable>): Extractor -> Option<ExtractionResult> {
    e => Attempt(e, env, cfg)
  }

  /** The loop of `run` for any per-extractor step: the records of the extractors that produced one,
      in extractor order. */
  function CollectWith(es: seq<Extractor>, attempt: Extractor -> Option<ExtractionResult>): (rs: seq<ExtractionResult>)
    ensures |rs| <= |es|
    ensures rs == [] <==> forall i :: 0 <= i < |es| ==> attempt(es[i]).None?
    decreases |es|
  {
    if |es| == 0 then []
    else
      var prev := CollectWith(es[..|es| - 1], attempt);
      assert forall i :: 0 <= i < |es| - 1 ==> es[..|es| - 1][i] == es[i];
      match attempt(es[|es| - 1])
      case None => prev
      case Some(r) => prev + [r]
  }

  /** The `results` list after the loop, in extractor order. */
  function Collect(es: seq<Extractor>, env: Engines, cfg: Option<PatternTable>): (rs: seq<ExtractionResult>)
    ensures |rs| <= |es|
    ensures rs == [] <==> forall i :: 0 <= i < |es| ==> CanProcess(es[i], env) == Success(false)
    ensures rs == Somes(Attempts(es, env, cfg))
  {
    var attempt := AttemptOf(env, cfg);
    assert forall i :: 0 <= i < |es| ==> attempt(es[i]) == Attempt(es[i], env, cfg);
    CollectWithIsSomes(es, attempt, Attempts(es, env, cfg));
    CollectWith(es, attempt)
  }

  /** What each extractor's iteration gives, in extractor order. */
  function Attempts(es: seq<Extractor>, env: Engines, cfg: Option<PatternTable>): seq<Option<ExtractionResult>> {
    seq(|es|, i requires 0 <= i < |es| => Attempt(es[i], env, cfg))
  }

  /** The loop keeps, in order, exactly the records the iterations produce. */
  lemma {:induction false} CollectWithIsSomes(es: seq<Extractor>, attempt: Extractor -> Option<ExtractionResult>, os: seq<Option<ExtractionResult>>)
    requires |os| == |es| && forall i :: 0 <= i < |es| ==> os[i] == attempt(es[i])
    ensures CollectWith(es, attempt) == Somes(os)
    decreases |es|
  {
    if |es| > 0 {
      var init := es[..|es| - 1];
      var last := attempt(es[|es| - 1]);
      var more := if last.Some? then [last.value] else [];
      CollectWithIsSomes(init, attempt, os[..|os| - 1]);
      assert Somes(os) == Somes(os[..|os| - 1]) + more by {
        assert os[|os| - 1] == last;
      }
      assert CollectWith(es, attempt) == CollectWith(init, attempt) + more by {
        CollectLast(es, attempt);
      }
    }
  }

  /** Collecting over two lists of extractors one after the other. */
  lemma {:induction false} CollectAppend(a: seq<Extractor>, b: seq<Extractor>, attempt: Extractor -> Option<ExtractionResult>)
    ensures CollectWith(a + b, attempt) == CollectWith(a, attempt) + CollectWith(b, attempt)
    decreases |b|
  {
    if |b| == 0 {
      assert a + b == a;
    } else {
      var b' := b[..|b| - 1];
      DropLastOfConcat(a, b);
      CollectAppend(a, b', attempt);
      CollectLast(a + b, attempt);
      CollectLast(b, attempt);
      var x := attempt(b[|b| - 1]);
      if x.Some? {
        AppendAssoc(CollectWith(a, attempt), CollectWith(b', attempt), [x.value]);
      }
    }
  }

  lemma AppendAssoc<T>(x: seq<T>, y: seq<T>, z: seq<T>)
    ensures (x + y) + z == x + (y + z)
  {
  }

  /** Dropping the last element of `a + b` drops it from `b`. */
  lemma DropLastOfConcat<T>(a: seq<T>, b: seq<T>)
    requires |b| > 0
    ensures (a + b)[..|a + b| - 1] == a + b[..|b| - 1]
    ensures (a + b)[|a + b| - 1] == b[|b| - 1]
  {
  }

  /** One step of the loop: the last extractor adds its record, if any. */
  lemma CollectLast(es: seq<Extractor>, attempt: Extractor -> Option<ExtractionResult>)
    requires |es| > 0
    ensures var prev := CollectWith(es[..|es| - 1], attempt);
      var a := attempt(es[|es| - 1]);
      CollectWith(es, attempt) == if a.Some? then prev + [a.value] else prev
  {
  }

  /** The dictionary `run` returns. */
  datatype PipelineOutput = PipelineOutput(fields: map<string, FieldValue>, confidence: real, meta: Meta)

  const NoExtractorOutput: PipelineOutput :=
    PipelineOutput(map[], 0.0, map["error" := MetaStr("No extractor available")])

  /** `ExtractionPipeline.run`: when no extractor produced anything, the "No extractor available"
      output; otherwise the left fold of the results, its metadata, and the mean confidence of its
      fields that have a value. */
  method Run(es: seq<Extractor>, env: Engines, cfg: Option<PatternTable>) returns (out: PipelineOutput)
    ensures Collect(es, env, cfg) == [] ==> out == NoExtractorOutput
    ensures Collect(es, env, cfg) != [] ==>
      && out.fields == FoldMerge(Collect(es, env, cfg)).fields
      && out.meta == FoldMerge(Collect(es, env, cfg)).docMeta
      && out.confidence == MeanConfidence(out.fields)
    ensures 0.0 <= out.confidence <= 1.0
  {
    var results := Collect(es, env, cfg);
    if results == [] {
      return NoExtractorOutput;
    }
    var merged := FoldMerge(results);
    var conf := AggregateConfidence(merged);
    return PipelineOutput(merged.fields, conf, merged.docMeta);
  }

  /** An extractor that raises leaves an error record in its place, and that record changes no field
      of the merged result. */
  lemma FailingExtractorChangesNoField(p: seq<Extractor>, e: Extractor, s: seq<Extractor>, env: Engines, cfg: Option<PatternTable>)
    requires CanProcess(e, env).Failure? || (CanProcess(e, env) == Success(true) && Extract(e, env, cfg).Failure?)
    requires Collect(p + s, env, cfg) != []
    ensures exists m :: Collect(p + [e] + s, env, cfg) == Collect(p, env, cfg) + [ErrorRecord(m, ClassName(e))] + Collect(s, env, cfg)
    ensures FoldMerge(Collect(p + [e] + s, env, cfg)).fields == FoldMerge(Collect(p + s, env, cfg)).fields
  {
    var attempt := AttemptOf(env, cfg);
    CollectAppend(p + [e], s, attempt);
    CollectAppend(p, [e], attempt);
    CollectAppend(p, s, attempt);
    assert [e][..0] == [];
    var err := Attempt(e, env, cfg).value;
    assert attempt(e) == Some(err);
    assert CollectWith([e], attempt) == [err];
    FoldMergeIgnoresNoFields(Collect(p, env, cfg), err, Collect(s, env, cfg));
  }

  /** A built-in extractor's contribution files each field under its own name with a confidence in [0, 1]. */
  lemma BuiltInAttemptWellFormed(e: Extractor, env: Engines, cfg: Option<PatternTable>)
    requires e.TextExtractor? || e.OcrExtractor?
    requires Attempt(e, env, cfg).Some?
    ensures WellFormedFields(Attempt(e, env, cfg).value.fields)
  {
    var x := Extract(e, env, cfg);
    if CanProcess(e, env) == Success(true) && x.Success? {
      assert Attempt(e, env, cfg).value == x.value;
      ExtractWellFormed(e, env, cfg);
    } else {
      assert Attempt(e, env, cfg).value.fields == map[];
    }
  }

  /** What a built-in extractor returns files each field under its own name with a confidence in [0, 1]. */
  lemma ExtractWellFormed(e: Extractor, env: Engines, cfg: Option<PatternTable>)
    requires e.TextExtractor? || e.OcrExtractor?
    requires Extract(e, env, cfg).Success?
    ensures WellFormedFields(Extract(e, env, cfg).value.fields)
  {
    if e.TextExtractor? {
      var (text, meta) := env.textLayer.value;
      assert Extract(e, env, cfg) == TextStrategy.ExtractFromText(text, cfg, env.search, meta, env.hash(text));
    }
  }

  /** Collecting from extractors whose contributions are all well formed gives well-formed results. */
  lemma {:induction false} CollectWellFormed(es: seq<Extractor>, attempt: Extractor -> Option<ExtractionResult>)
    requires forall i :: 0 <= i < |es| && attempt(es[i]).Some? ==> WellFormedFields(attempt(es[i]).value.fields)
    ensures forall j :: 0 <= j < |CollectWith(es, attempt)| ==> WellFormedFields(CollectWith(es, attempt)[j].fields)
    decreases |es|
  {
    if |es| > 0 {
      var es' := es[..|es| - 1];
      assert forall i :: 0 <= i < |es'| ==> es'[i] == es[i];
      CollectWellFormed(es', attempt);
      CollectLast(es, attempt);
    }
  }

  /** Every result of the built-in extractors files each field under its own name with a confidence
      in [0, 1], and so does their merge. */
  lemma BuiltInsWellFormed(env: Engines, cfg: Option<PatternTable>)
    ensures forall j :: 0 <= j < |Collect([TextExtractor, OcrExtractor], env, cfg)| ==>
      WellFormedFields(Collect([TextExtractor, OcrExtractor], env, cfg)[j].fields)
    ensures Collect([TextExtractor, OcrExtractor], env, cfg) != [] ==>
      WellFormedFields(FoldMerge(Collect([TextExtractor, OcrExtractor], env, cfg)).fields)
  {
    var es := [TextExtractor, OcrExtractor];
    var attempt := AttemptOf(env, cfg);
    forall i | 0 <= i < |es| && attempt(es[i]).Some?
      ensures WellFormedFields(attempt(es[i]).value.fields)
    {
      BuiltInAttemptWellFormed(es[i], env, cfg);
    }
    CollectWellFormed(es, attempt);
    assert Collect(es, env, cfg) == CollectWith(es, attempt);
    if Collect(es, env, cfg) != [] {
      FoldMergePreservesWellFormed(Collect(es, env, cfg));
    }
  }

  /** Without a working OCR stack the default pipeline is the text extractor alone; if the text layer
      is also blank or unreadable, it reports "No extractor available". */
  lemma OcrUnavailable(env: Engines, cfg: Option<PatternTable>)
    requires !env.ocrReady
    ensures Collect([TextExtractor, OcrExtractor], env, cfg) == Collect([TextExtractor], env, cfg)
    ensures env.textLayer.Failure? || IsBlank(env.textLayer.value.0) ==> Collect([TextExtractor, OcrExtractor], env, cfg) == []
  {
    assert [TextExtractor, OcrExtractor][..1] == [TextExtractor];
    assert [TextExtractor][..0] == [];
  }

  /** OCR fields never displace a text field of confidence 0.54 or more when text comes first. */
  lemma OcrCannotBeatConfidentText(env: Engines, cfg: Option<PatternTable>, t: ExtractionResult, o: ExtractionResult, k: string)
    requires OcrStrategy.OcrExtract(env.ocrReady, env.ocrText, cfg, env.search, env.hash) == Success(o)
    requires k in t.fields && t.fields[k].confidence >= 0.54
    ensures MergeWith(t, o).fields[k] == t.fields[k]
  {
    if k in o.fields {
      assert o.fields[k].confidence <= 0.54;
    }
  }
}
