/** The shared data model (`FieldValue`, `ExtractionResult`), the merge policy between two results and
    the aggregate document confidence. */
module Fields {
  import opened Wrappers

  /** The nine field names the built-in patterns and the key/value scanner know. */
  const CustomerName := "customer_name"
  const Address := "address"
  const PolicyNumber := "policy_number"
  const ClaimType := "claim_type"
  const DateOfIncident := "date_of_incident"
  const ClaimAmount := "claim_amount"
  const Agent := "agent"
  const FormType := "form_type"
  const SubmissionDate := "submission_date"

  const FieldNames: set<string> := {CustomerName, Address, PolicyNumber, ClaimType, DateOfIncident, ClaimAmount, Agent, FormType, SubmissionDate}

  /** A document-metadata value: the handful of Python types the engine stores there. */
  datatype MetaValue = MetaStr(str: string) | MetaBool(flag: bool) | MetaReal(number: real) | MetaInt(count: int) | MetaNone

  type Meta = map<string, MetaValue>

  /** One named field's extracted datum. `meta` is the per-field auxiliary map (`{"method": "kv"}`). */
  datatype FieldValue = FieldValue(name: string, value: Option<string>, confidence: real, source: string, meta: map<string, string>)

  /** One extraction run's fields, the fingerprint of the text it read, and document-level metadata. */
  datatype ExtractionResult = ExtractionResult(fields: map<string, FieldValue>, textDigest: Option<string>, docMeta: Meta)

  /** A result with no fields, no digest and the given metadata. */
  function EmptyResult(meta: Meta): (r: ExtractionResult)
    ensures r.fields == map[] && r.textDigest.None? && r.docMeta == meta
  {
    ExtractionResult(map[], None, meta)
  }

  /** Python truthiness of an optional string: `None` and `""` are both false. */
  predicate Truthy(s: Option<string>) {
    s.Some? && s.value != ""
  }

  function Min(a: real, b: real): real { if a <= b then a else b }

  function Max(a: real, b: real): real { if a >= b then a else b }

  /** `max(0.0, min(1.0, c))`. */
  function Clamp01(c: real): (r: real)
    ensures 0.0 <= r <= 1.0
    ensures 0.0 <= c <= 1.0 ==> r == c
    ensures c < 0.0 ==> r == 0.0
    ensures c > 1.0 ==> r == 1.0
  {
    Max(0.0, Min(1.0, c))
  }

  /** Every field is filed under its own name and has a confidence in [0, 1]. */
  predicate WellFormedFields(fields: map<string, FieldValue>) {
    forall k :: k in fields ==> fields[k].name == k && 0.0 <= fields[k].confidence <= 1.0
  }

  /** `ExtractionResult.merge_with`: the field map keeps `self`'s entry unless `other` has the same key
      with a strictly higher confidence; metadata is updated by `other`; the first truthy digest wins. */
  function MergeWith(self: ExtractionResult, other: ExtractionResult): (r: ExtractionResult)
    ensures r.fields.Keys == self.fields.Keys + other.fields.Keys
    ensures forall k :: k in self.fields && k !in other.fields ==> r.fields[k] == self.fields[k]
    ensures forall k :: k !in self.fields && k in other.fields ==> r.fields[k] == other.fields[k]
    ensures forall k :: k in self.fields && k in other.fields ==>
      && r.fields[k].confidence == Max(self.fields[k].confidence, other.fields[k].confidence)
      && (self.fields[k].confidence >= other.fields[k].confidence ==> r.fields[k] == self.fields[k])
      && (self.fields[k].confidence < other.fields[k].confidence ==> r.fields[k] == other.fields[k])
    ensures r.docMeta.Keys == self.docMeta.Keys + other.docMeta.Keys
    ensures forall k :: k in other.docMeta ==> r.docMeta[k] == other.docMeta[k]
    ensures forall k :: k in self.docMeta && k !in other.docMeta ==> r.docMeta[k] == self.docMeta[k]
    ensures Truthy(self.textDigest) ==> r.textDigest == self.textDigest
    ensures !Truthy(self.textDigest) ==> r.textDigest == other.textDigest
  {
    var merged := map k | k in self.fields.Keys + other.fields.Keys ::
      if k in other.fields && (k !in self.fields || other.fields[k].confidence > self.fields[k].confidence)
      then other.fields[k] else self.fields[k];
    ExtractionResult(merged, if Truthy(self.textDigest) then self.textDigest else other.textDigest, self.docMeta + other.docMeta)
  }

  /** Merging with a result that has no fields leaves the field map as it is; only metadata and the
      digest can change. From the left, a field-less result contributes nothing either. */
  lemma MergeWithNoFields(a: ExtractionResult, e: ExtractionResult)
    requires e.fields == map[]
    ensures MergeWith(a, e).fields == a.fields
    ensures MergeWith(e, a).fields == a.fields
  {
  }

  /** The field winners do not depend on the merge order, except between two entries of equal
      confidence (where the earlier result wins). */
  lemma MergeFieldsCommute(a: ExtractionResult, b: ExtractionResult)
    ensures MergeWith(a, b).fields.Keys == MergeWith(b, a).fields.Keys
    ensures forall k :: k in MergeWith(a, b).fields ==>
      (k in a.fields && k in b.fields && a.fields[k].confidence == b.fields[k].confidence) ||
      MergeWith(a, b).fields[k] == MergeWith(b, a).fields[k]
  {
  }

  /** Merging a result with itself gives it back. */
  lemma MergeIdempotent(a: ExtractionResult)
    ensures MergeWith(a, a) == a
  {
    assert MergeWith(a, a).fields == a.fields;
    assert MergeWith(a, a).docMeta == a.docMeta;
  }

  /** Merging keeps every field filed under its own name with a confidence in [0, 1]. */
  lemma MergePreservesWellFormed(a: ExtractionResult, b: ExtractionResult)
    requires WellFormedFields(a.fields) && WellFormedFields(b.fields)
    ensures WellFormedFields(MergeWith(a, b).fields)
  {
  }

  /** The pipeline's left fold: `merged = rs[0]; for r in rs[1:]: merged = merged.merge_with(r)`. */
  function FoldMerge(rs: seq<ExtractionResult>): (r: ExtractionResult)
    requires |rs| > 0
    ensures forall k :: k in r.fields <==> exists i :: 0 <= i < |rs| && k in rs[i].fields
    ensures forall k :: k in r.docMeta <==> exists i :: 0 <= i < |rs| && k in rs[i].docMeta
    decreases |rs|
  {
    if |rs| == 1 then rs[0]
    else
      var prev := FoldMerge(rs[..|rs| - 1]);
      assert forall i :: 0 <= i < |rs| - 1 ==> rs[..|rs| - 1][i] == rs[i];
      MergeWith(prev, rs[|rs| - 1])
  }

  /** Result `i` holds the winning entry for key `k` among `rs`: it has the largest confidence for `k`
      and every earlier result holding `k` has a strictly smaller one. */
  ghost predicate IsFirstBest(rs: seq<ExtractionResult>, k: string, i: int) {
    && 0 <= i < |rs| && k in rs[i].fields
    && (forall j :: 0 <= j < |rs| && k in rs[j].fields ==> rs[j].fields[k].confidence <= rs[i].fields[k].confidence)
    && (forall j :: 0 <= j < i && k in rs[j].fields ==> rs[j].fields[k].confidence < rs[i].fields[k].confidence)
  }

  /** Folding `merge_with` keeps, for every key, the entry of the first result with the highest confidence. */
  lemma {:induction false} FoldMergePicksFirstBest(rs: seq<ExtractionResult>, k: string)
    requires |rs| > 0
    requires k in FoldMerge(rs).fields
    ensures exists i :: IsFirstBest(rs, k, i) && FoldMerge(rs).fields[k] == rs[i].fields[k]
    decreases |rs|
  {
    if |rs| == 1 {
      assert IsFirstBest(rs, k, 0);
    } else {
      var n := |rs| - 1;
      var init := rs[..n];
      var prev := FoldMerge(init);
      var last := rs[n];
      assert FoldMerge(rs) == MergeWith(prev, last);
      if k in prev.fields {
        FoldMergePicksFirstBest(init, k);
        var i :| IsFirstBest(init, k, i) && prev.fields[k] == init[i].fields[k];
        if k in last.fields && last.fields[k].confidence > prev.fields[k].confidence {
          FirstBestOvertaken(rs, k, i);
          assert FoldMerge(rs).fields[k] == rs[n].fields[k];
        } else {
          FirstBestKept(rs, k, i);
          assert FoldMerge(rs).fields[k] == rs[i].fields[k];
        }
      } else {
        assert forall j :: 0 <= j < n ==> k !in rs[j].fields by {
          forall j | 0 <= j < n ensures k !in rs[j].fields {
            assert init[j] == rs[j];
          }
        }
        LastIsFirstBest(rs, k);
        assert FoldMerge(rs).fields[k] == rs[n].fields[k];
      }
    }
  }

  /** A winner among all but the last result stays the winner when the last one does not beat it. */
  lemma FirstBestKept(rs: seq<ExtractionResult>, k: string, i: int)
    requires |rs| > 1 && IsFirstBest(rs[..|rs| - 1], k, i)
    requires k in rs[|rs| - 1].fields ==> rs[|rs| - 1].fields[k].confidence <= rs[i].fields[k].confidence
    ensures IsFirstBest(rs, k, i)
  {
    var init := rs[..|rs| - 1];
    assert forall j :: 0 <= j < |rs| - 1 ==> init[j] == rs[j];
  }

  /** A last result that beats the winner among the others becomes the winner. */
  lemma FirstBestOvertaken(rs: seq<ExtractionResult>, k: string, i: int)
    requires |rs| > 1 && IsFirstBest(rs[..|rs| - 1], k, i)
    requires k in rs[|rs| - 1].fields && rs[|rs| - 1].fields[k].confidence > rs[i].fields[k].confidence
    ensures IsFirstBest(rs, k, |rs| - 1)
  {
    var init := rs[..|rs| - 1];
    assert forall j :: 0 <= j < |rs| - 1 ==> init[j] == rs[j];
  }

  /** The last result holds the winning entry when every earlier entry for `k` is strictly lower. */
  lemma LastIsFirstBest(rs: seq<ExtractionResult>, k: string)
    requires |rs| > 0 && k in rs[|rs| - 1].fields
    requires forall j :: 0 <= j < |rs| - 1 && k in rs[j].fields ==> rs[j].fields[k].confidence < rs[|rs| - 1].fields[k].confidence
    ensures IsFirstBest(rs, k, |rs| - 1)
  {
  }

  /** Folding keeps every field filed under its own name with a confidence in [0, 1]. */
  lemma {:induction false} FoldMergePreservesWellFormed(rs: seq<ExtractionResult>)
    requires |rs| > 0
    requires forall i :: 0 <= i < |rs| ==> WellFormedFields(rs[i].fields)
    ensures WellFormedFields(FoldMerge(rs).fields)
    decreases |rs|
  {
    if |rs| > 1 {
      FoldMergePreservesWellFormed(rs[..|rs| - 1]);
      MergePreservesWellFormed(FoldMerge(rs[..|rs| - 1]), rs[|rs| - 1]);
    }
  }

  /** A field-less result (a failing extractor's error record) anywhere in the fold changes no field. */
  lemma {:induction false} FoldMergeIgnoresNoFields(p: seq<ExtractionResult>, e: ExtractionResult, s: seq<ExtractionResult>)
    requires e.fields == map[]
    requires |p + s| > 0
    ensures FoldMerge(p + [e] + s).fields == FoldMerge(p + s).fields
    decreases |s|
  {
    if |s| == 0 {
      assert p + [e] + s == p + [e];
      assert p + s == p;
      assert (p + [e])[..|p|] == p;
      MergeWithNoFields(FoldMerge(p), e);
    } else {
      var n := |s| - 1;
      var s' := s[..n];
      assert (p + [e] + s)[..|p + [e] + s| - 1] == p + [e] + s';
      assert (p + s)[..|p + s| - 1] == p + s';
      if |p + s'| > 0 {
        FoldMergeIgnoresNoFields(p, e, s');
      } else {
        assert p + [e] + s' == [e];
        assert p + s == [s[n]];
        MergeWithNoFields(s[n], e);
      }
    }
  }

  /** The fields the aggregate confidence averages over: those with a value. */
  ghost function FilledKeys(fields: map<string, FieldValue>): set<string> {
    set k | k in fields && fields[k].value.Some?
  }

  /** Sum of the clamped confidences of the fields named in `keys`. */
  ghost function SumClamped(fields: map<string, FieldValue>, keys: set<string>): real
    requires keys <= fields.Keys
    decreases keys
  {
    if keys == {} then 0.0
    else
      var k :| k in keys;
      Clamp01(fields[k].confidence) + SumClamped(fields, keys - {k})
  }

  /** The sum does not depend on which key is taken out first. */
  lemma {:induction false} SumClampedRemove(fields: map<string, FieldValue>, keys: set<string>, k: string)
    requires keys <= fields.Keys && k in keys
    ensures SumClamped(fields, keys) == Clamp01(fields[k].confidence) + SumClamped(fields, keys - {k})
    decreases keys
  {
    var k' :| k' in keys && SumClamped(fields, keys) == Clamp01(fields[k'].confidence) + SumClamped(fields, keys - {k'});
    if k' != k {
      SumClampedRemove(fields, keys - {k'}, k);
      SumClampedRemove(fields, keys - {k}, k');
      assert keys - {k'} - {k} == keys - {k} - {k'};
    }
  }

  /** The aggregate document confidence as a mathematical definition: the mean of the clamped
      confidences of the fields that have a value, or 0 when no field has one. */
  ghost function MeanConfidence(fields: map<string, FieldValue>): real {
    var filled := FilledKeys(fields);
    if |filled| == 0 then 0.0 else SumClamped(fields, filled) / (|filled| as real)
  }

  /** `aggregate_confidence`: the loop over the fields, summing clamped confidences of valued fields. */
  method AggregateConfidence(r: ExtractionResult) returns (c: real)
    ensures c == MeanConfidence(r.fields)
    ensures 0.0 <= c <= 1.0
    ensures FilledKeys(r.fields) == {} ==> c == 0.0
  {
    if |r.fields| == 0 {
      assert FilledKeys(r.fields) == {};
      return 0.0;
    }
    ghost var filled := FilledKeys(r.fields);
    var total := 0.0;
    var n := 0;
    var todo := r.fields.Keys;
    assert filled * todo == filled;
    while todo != {}
      invariant todo <= r.fields.Keys
      invariant total + SumClamped(r.fields, filled * todo) == SumClamped(r.fields, filled)
      invariant n + |filled * todo| == |filled|
      invariant 0.0 <= total <= n as real
      decreases todo
    {
      var k :| k in todo;
      if r.fields[k].value.Some? {
        SumClampedRemove(r.fields, filled * todo, k);
        assert filled * todo - {k} == filled * (todo - {k});
        total := total + Clamp01(r.fields[k].confidence);
        n := n + 1;
      } else {
        assert filled * todo == filled * (todo - {k});
      }
      todo := todo - {k};
    }
    assert filled * todo == {};
    assert total == SumClamped(r.fields, filled) && n == |filled|;
    if n == 0 {
      c := 0.0;
    } else {
      c := total / (n as real);
      RatioAtMostOne(total, n as real);
    }
  }

  /** A non-negative total over a positive count it does not exceed averages to at most 1. */
  lemma RatioAtMostOne(total: real, n: real)
    requires 0.0 <= total <= n && n > 0.0
    ensures 0.0 <= total / n <= 1.0
  {
  }

  /** With exactly two valued fields, both confident within [0, 1], the aggregate is their average. */
  lemma MeanOfTwo(fields: map<string, FieldValue>, a: string, b: string)
    requires a != b && FilledKeys(fields) == {a, b}
    requires 0.0 <= fields[a].confidence <= 1.0 && 0.0 <= fields[b].confidence <= 1.0
    ensures MeanConfidence(fields) == (fields[a].confidence + fields[b].confidence) / 2.0
  {
    SumClampedRemove(fields, {a, b}, a);
    assert {a, b} - {a} == {b};
    SumClampedRemove(fields, {b}, b);
    assert {b} - {b} == {};
  }

  /** Valued confidences 0.9 and 0.8 next to an unvalued field average to 0.85 (the unit test of
      `aggregate_confidence`). */
  lemma AggregateExample()
    ensures MeanConfidence(map[
      "policy_number" := FieldValue("policy_number", Some("ABC-123"), 0.9, "text", map[]),
      "customer_name" := FieldValue("customer_name", Some("Jane Doe"), 0.8, "text", map[]),
      "address" := FieldValue("address", None, 0.0, "text", map[])]) == 0.85
  {
    var fields := map[
      "policy_number" := FieldValue("policy_number", Some("ABC-123"), 0.9, "text", map[]),
      "customer_name" := FieldValue("customer_name", Some("Jane Doe"), 0.8, "text", map[]),
      "address" := FieldValue("address", None, 0.0, "text", map[])];
    assert FilledKeys(fields) == {"policy_number", "customer_name"} by {
      assert "address" !in FilledKeys(fields);
      assert fields.Keys == {"policy_number", "customer_name", "address"};
    }
    MeanOfTwo(fields, "policy_number", "customer_name");
  }
}
