/** Extraction patterns: the built-in table, the per-field union with a config's patterns, and the
    regular-expression engine, which the model leaves uninterpreted. */
module Patterns {
  import opened Wrappers
  import opened Strings
  import opened Fields
  import opened Selection

  /** What one `re.search(pattern, text, flags)` call gives: the pattern does not compile (`re.error`),
      no match, or a match with the text of capture group 1 — `None` when the pattern has no group 1
      or the group did not take part in the match, in which case `m.group(1).strip()` raises. */
  datatype SearchOutcome = BadPattern | NoMatch | Match(group1: Option<string>)

  /** The regex engine: `search(pattern, text, dotAll)`. Both strategies search case-insensitively in
      MULTILINE mode; `dotAll` says whether DOTALL is on as well. */
  type Searcher = (string, string, bool) -> SearchOutcome

  /** Field name to its ordered pattern list (the `patterns` object of a config). */
  type PatternTable = map<string, seq<string>>

  /** The built-in patterns (`DEFAULT_PATTERNS`); their text only matters to the regex engine. */
  const DefaultPatterns: PatternTable := map[
    CustomerName := [
      @"(?:Insured|Insured\s+Name|Name\s+of\s+Insured|Customer\s+Name|Policy\s+Holder)\s*[:#\-]?\s*([A-Z][A-Za-z ,.'\-]{2,}(?:\s+[A-Z][A-Za-z ,.'\-]{1,})?)",
      @"(?:Name)\s*[:#\-]?\s*([A-Z][A-Za-z ,.'\-]{2,}(?:\s+[A-Z][A-Za-z ,.'\-]{1,})?)"],
    Address := [
      @"Address\s*[:#\-]?\s*([\s\S]{5,160}?)\n(?=\S+\s*[:#\-])",
      @"Address\s*[:#\-]?\s*([\s\S]{5,120})"],
    PolicyNumber := [
      @"Policy\s*(?:No\.?|Number|#)?\s*[:#\-]?\s*([A-Z0-9][A-Z0-9\-/]{4,})"],
    ClaimType := [
      @"Claim\s*Type\s*[:#\-]?\s*([A-Za-z /]{3,80})",
      @"Type\s*of\s*Claim\s*[:#\-]?\s*([A-Za-z /]{3,80})"],
    DateOfIncident := [
      @"(?:Date\s*of\s*Incident|Loss\s*Date|Date\s*of\s*Loss)\s*[:#\-]?\s*(\d{2,4}[-/.]\d{1,2}[-/.]\d{1,2})"],
    ClaimAmount := [
      @"(?:Claim\s*Amount|Amount\s*Claimed|Total\s*Claim(?:ed)?|Amount)\s*[:#\-]?\s*([$€£]?\s?[\d,.]+(?:\.\d{2})?)"],
    Agent := [
      @"(?:Agent|Broker|Branch|Producer)\s*[:#\-]?\s*([A-Za-z0-9 .,'&\-]{3,120})"],
    FormType := [
      @"(AXA\s*XL[\s\S]{0,40}?(?:Claim|Form|Policy|Customer|Schedule|Certificate))"],
    SubmissionDate := [
      @"(?:Submission\s*Date|Date\s*Submitted|Issue\s*Date|Submission)\s*[:#\-]?\s*(\d{2,4}[-/.]\d{1,2}[-/.]\d{1,2})"]
  ]

  predicate NoDup(s: seq<string>) {
    forall a, b :: 0 <= a < b < |s| ==> s[a] != s[b]
  }

  /** Reference definition of order-preserving de-duplication: each element at its first occurrence. */
  function FirstOccurrences(s: seq<string>): (r: seq<string>)
    ensures forall x :: x in r <==> x in s
    ensures NoDup(r)
    ensures |r| <= |s|
    decreases |s|
  {
    if |s| == 0 then []
    else
      var init := FirstOccurrences(s[..|s| - 1]);
      var x := s[|s| - 1];
      if x in s[..|s| - 1] then init else init + [x]
  }

  /** The de-duplication loop of `extract` from position `i`, with the `seen` set and the `uniq` list so far. */
  function DedupLoop(s: seq<string>, i: nat, seen: set<string>, uniq: seq<string>): seq<string>
    requires i <= |s|
    decreases |s| - i
  {
    if i == |s| then uniq
    else if s[i] in seen then DedupLoop(s, i + 1, seen, uniq)
    else DedupLoop(s, i + 1, seen + {s[i]}, uniq + [s[i]])
  }

  /** The loop computes the reference de-duplication once its state describes the prefix it has read. */
  lemma {:induction false} DedupLoopIsFirstOccurrences(s: seq<string>, i: nat, seen: set<string>, uniq: seq<string>)
    requires i <= |s|
    requires forall x :: x in seen <==> x in s[..i]
    requires uniq == FirstOccurrences(s[..i])
    ensures DedupLoop(s, i, seen, uniq) == FirstOccurrences(s)
    decreases |s| - i
  {
    if i == |s| {
      assert s[..i] == s;
    } else {
      var next := s[..i + 1];
      assert next[..i] == s[..i];
      assert forall x :: x in next <==> x in s[..i] || x == s[i];
      DedupLoopIsFirstOccurrences(s, i + 1, if s[i] in seen then seen else seen + {s[i]},
        if s[i] in seen then uniq else uniq + [s[i]]);
    }
  }

  /** Order-preserving de-duplication of a pattern list. */
  function Dedup(s: seq<string>): (r: seq<string>)
    ensures r == FirstOccurrences(s)
  {
    DedupLoopIsFirstOccurrences(s, 0, {}, []);
    DedupLoop(s, 0, {}, [])
  }

  /** A list without repetitions is its own de-duplication. */
  lemma {:induction false} FirstOccurrencesOfDistinct(a: seq<string>)
    requires NoDup(a)
    ensures FirstOccurrences(a) == a
    decreases |a|
  {
    if |a| > 0 {
      var init := a[..|a| - 1];
      FirstOccurrencesOfDistinct(init);
      assert a[|a| - 1] !in init;
      assert init + [a[|a| - 1]] == a;
    }
  }

  /** De-duplicating `a + b` keeps a repetition-free `a` in front, unchanged. */
  lemma {:induction false} DistinctPrefixKept(a: seq<string>, b: seq<string>)
    requires NoDup(a)
    ensures |FirstOccurrences(a + b)| >= |a|
    ensures FirstOccurrences(a + b)[..|a|] == a
    decreases |b|
  {
    if |b| == 0 {
      assert a + b == a;
      FirstOccurrencesOfDistinct(a);
    } else {
      var b' := b[..|b| - 1];
      DistinctPrefixKept(a, b');
      assert (a + b)[..|a + b| - 1] == a + b';
    }
  }

  function Lookup(t: PatternTable, k: string): seq<string> {
    if k in t then t[k] else []
  }

  /** The text strategy's pattern table: for every field named by the defaults or the config, the default
      patterns followed by the config's, each pattern kept at its first occurrence. */
  function EffectivePatterns(cfg: PatternTable): (r: PatternTable)
    ensures r.Keys == DefaultPatterns.Keys + cfg.Keys
    ensures forall k :: k in r ==> r[k] == FirstOccurrences(Lookup(DefaultPatterns, k) + Lookup(cfg, k))
  {
    map k | k in DefaultPatterns.Keys + cfg.Keys :: Dedup(Lookup(DefaultPatterns, k) + Lookup(cfg, k))
  }

  /** Each default pattern list is free of repetitions. */
  lemma DefaultsDistinct(k: string)
    requires k in DefaultPatterns
    ensures NoDup(DefaultPatterns[k])
  {
  }

  /** In the effective table every field lists its default patterns first, in their order, then only
      config patterns not seen before; nothing repeats and nothing is lost. */
  lemma EffectivePatternsShape(cfg: PatternTable, k: string)
    requires k in EffectivePatterns(cfg)
    ensures var r := EffectivePatterns(cfg)[k];
      && |r| >= |Lookup(DefaultPatterns, k)|
      && r[..|Lookup(DefaultPatterns, k)|] == Lookup(DefaultPatterns, k)
      && NoDup(r)
      && forall p :: p in r <==> p in Lookup(DefaultPatterns, k) || p in Lookup(cfg, k)
  {
    var d := Lookup(DefaultPatterns, k);
    if k in DefaultPatterns {
      DefaultsDistinct(k);
    }
    DistinctPrefixKept(d, Lookup(cfg, k));
  }

  /** Number of patterns in `pats` that match. */
  function MatchCount(pats: seq<string>, text: string, search: Searcher, dotAll: bool): nat
    decreases |pats|
  {
    if |pats| == 0 then 0
    else (if search(pats[0], text, dotAll).Match? then 1 else 0) + MatchCount(pats[1..], text, search, dotAll)
  }

  /** What each pattern contributes: the stripped text of group 1 when it matches with one, nothing
      otherwise. */
  function CaptureOptions(pats: seq<string>, text: string, search: Searcher, dotAll: bool): (os: seq<Option<string>>)
    ensures |os| == |pats|
    ensures forall i :: 0 <= i < |pats| ==> os[i] == CaptureOf(search(pats[i], text, dotAll))
  {
    seq(|pats|, i requires 0 <= i < |pats| => CaptureOf(search(pats[i], text, dotAll)))
  }

  /** The stripped group 1 of a match that has one. */
  function CaptureOf(o: SearchOutcome): Option<string> {
    match o
    case Match(Some(g)) => Some(Strip(g))
    case _ => None
  }

  /** The stripped group-1 texts of the matching patterns, in pattern order. Patterns that do not
      compile or do not match contribute nothing; a match without a group 1 raises. */
  function Captures(pats: seq<string>, text: string, search: Searcher, dotAll: bool): (r: Result<seq<string>>)
    ensures r.Success? <==> forall i :: 0 <= i < |pats| ==> search(pats[i], text, dotAll) != Match(None)
    ensures r.Success? ==> |r.value| == MatchCount(pats, text, search, dotAll)
    ensures r.Success? ==> forall h :: h in r.value ==>
      exists i :: 0 <= i < |pats| && search(pats[i], text, dotAll).Match? && search(pats[i], text, dotAll).group1.Some? &&
        h == Strip(search(pats[i], text, dotAll).group1.value)
    decreases |pats|
  {
    if |pats| == 0 then Success([])
    else
      var rest := Captures(pats[1..], text, search, dotAll);
      assert forall i :: 0 <= i < |pats| - 1 ==> pats[1..][i] == pats[i + 1];
      match search(pats[0], text, dotAll)
      case BadPattern => rest
      case NoMatch => rest
      case Match(None) => Failure("no such group")
      case Match(Some(g)) => if rest.Failure? then rest else Success([Strip(g)] + rest.value)
  }

  /** The captures are, in order, the contributions of the patterns that contribute one: the `m`-th
      capture comes from the `m`-th pattern that matches with a group 1 (`Somes`), and a pattern that
      matches twice in the list contributes twice. */
  lemma {:induction false} CapturesInOrder(pats: seq<string>, text: string, search: Searcher, dotAll: bool)
    ensures var r := Captures(pats, text, search, dotAll);
      r.Success? ==> r.value == Somes(CaptureOptions(pats, text, search, dotAll))
    decreases |pats|
  {
    if |pats| > 0 {
      CapturesInOrder(pats[1..], text, search, dotAll);
      var o := CaptureOf(search(pats[0], text, dotAll));
      assert CaptureOptions(pats, text, search, dotAll) == [o] + CaptureOptions(pats[1..], text, search, dotAll);
      SomesCons(o, CaptureOptions(pats[1..], text, search, dotAll));
    }
  }

  /** A pattern that does not compile is skipped: removing it changes nothing. */
  lemma {:induction false} BadPatternSkipped(p: seq<string>, bad: string, s: seq<string>, text: string, search: Searcher, dotAll: bool)
    requires search(bad, text, dotAll) == BadPattern
    ensures Captures(p + [bad] + s, text, search, dotAll) == Captures(p + s, text, search, dotAll)
    decreases |p|
  {
    if |p| == 0 {
      assert p + [bad] + s == [bad] + s;
      TailOfConcat([bad], s);
      assert p + s == s;
    } else {
      BadPatternSkipped(p[1..], bad, s, text, search, dotAll);
      TailOfConcat(p, [bad]);
      TailOfConcat(p + [bad], s);
      TailOfConcat(p, s);
    }
  }

  /** The head and tail of a concatenation whose left part is not empty. */
  lemma TailOfConcat<T>(p: seq<T>, q: seq<T>)
    requires |p| > 0
    ensures (p + q)[0] == p[0] && (p + q)[1..] == p[1..] + q
  {
  }
}
