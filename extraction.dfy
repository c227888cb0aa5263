/**
 * The extractor `EDCPTExtractor`: it holds the code table, compiles each
 * entry's patterns once, and extracts the codes of a note by cleaning it,
 * scoring every table entry against it, keeping the entries scored above 0.3,
 * sorting them by confidence and applying the business rules.
 *
 * `ExtractCodes` is the whole extraction as a function of the table and the
 * note; the methods of `Extractor` are proved to compute it.
 */
module Extraction {
  import opened Text
  import opened Normalizer
  import opened Model
  import opened Scoring
  import opened Ranking
  import opened Rules
  import opened Reporting

  /** The confidence a table entry needs to become a candidate. */
  const InclusionThreshold: real := 0.3

  predicate AboveInclusionThreshold(c: CptCode) {
    c.confidence > InclusionThreshold
  }

  // ----- Pattern compilation -----

  /** `[re.compile(p) for p in patterns]`. */
  function CompileAll(patterns: seq<string>): seq<CompiledPattern> {
    seq(|patterns|, j requires 0 <= j < |patterns| => CompiledPattern(patterns[j]))
  }

  /** A table entry with its compiled patterns stored. */
  function CompileEntry(e: Entry): Entry {
    (e.0, e.1.(compiled := CompileAll(e.1.patterns)))
  }

  /** The table after `_compile_patterns`. */
  function CompileTable(table: seq<Entry>): seq<Entry> {
    seq(|table|, i requires 0 <= i < |table| => CompileEntry(table[i]))
  }

  /** Every entry's patterns are stored compiled. */
  predicate IsCompiled(table: seq<Entry>) {
    forall i :: 0 <= i < |table| ==> table[i].1.compiled == CompileAll(table[i].1.patterns)
  }

  /** Compilation keeps every entry's code, description, category, keywords
      and patterns, stores one compiled pattern per pattern, each searching
      exactly as its source pattern does, and a second compilation changes
      nothing. */
  lemma CompileTableProperties(engine: RegexEngine, table: seq<Entry>, text: string)
    ensures |CompileTable(table)| == |table|
    ensures forall i :: 0 <= i < |table| ==>
      var (code, info) := CompileTable(table)[i];
      code == table[i].0 && info.description == table[i].1.description
      && info.category == table[i].1.category && info.keywords == table[i].1.keywords
      && info.patterns == table[i].1.patterns && |info.compiled| == |info.patterns|
      && forall j :: 0 <= j < |info.compiled| ==> (Search(engine, info.compiled[j], text) <==> engine(info.patterns[j], text))
    ensures IsCompiled(CompileTable(table))
    ensures CompileTable(CompileTable(table)) == CompileTable(table)
  {
  }

  // ----- The candidate list -----

  /** The `CPTCode` record for a table entry scored against `text`. */
  function ScoreEntry(engine: RegexEngine, e: Entry, text: string): CptCode {
    CptCode(e.0, e.1.description, e.1.category, Confidence(engine, text, e.1))
  }

  /** `found_codes` after the loop over the table: the entries scored above
      the inclusion threshold, in table order. */
  function Candidates(engine: RegexEngine, table: seq<Entry>, text: string): seq<CptCode> {
    if table == [] then []
    else
      var c := ScoreEntry(engine, table[|table| - 1], text);
      Candidates(engine, table[..|table| - 1], text) + (if AboveInclusionThreshold(c) then [c] else [])
  }

  /** One more table entry: the candidate list grows by that entry when it
      scores above the threshold. */
  lemma CandidatesStep(engine: RegexEngine, table: seq<Entry>, i: nat, text: string)
    requires i < |table|
    ensures Candidates(engine, table[..i + 1], text)
      == Candidates(engine, table[..i], text)
         + (if AboveInclusionThreshold(ScoreEntry(engine, table[i], text)) then [ScoreEntry(engine, table[i], text)] else [])
  {
    assert table[..i + 1][..i] == table[..i];
  }

  /** Every table entry scored, in table order. */
  function ScoreAll(engine: RegexEngine, table: seq<Entry>, text: string): seq<CptCode> {
    seq(|table|, i requires 0 <= i < |table| => ScoreEntry(engine, table[i], text))
  }

  lemma ScoreAllStep(engine: RegexEngine, table: seq<Entry>, text: string)
    requires table != []
    ensures ScoreAll(engine, table, text)
      == ScoreAll(engine, table[..|table| - 1], text) + [ScoreEntry(engine, table[|table| - 1], text)]
  {
  }

  lemma {:induction false} FilterAppend(a: seq<CptCode>, b: seq<CptCode>, p: CptCode -> bool)
    ensures Filter(a + b, p) == Filter(a, p) + Filter(b, p)
  {
    if a != [] {
      assert (a + b)[1..] == a[1..] + b;
      FilterAppend(a[1..], b, p);
    } else {
      assert a + b == b;
    }
  }

  /** The candidate list is the list of all scored entries filtered by the
      threshold: the loop neither drops nor reorders anything else. */
  lemma {:induction false} CandidatesAreFiltered(engine: RegexEngine, table: seq<Entry>, text: string)
    ensures Candidates(engine, table, text) == Filter(ScoreAll(engine, table, text), AboveInclusionThreshold)
  {
    if table != [] {
      var n := |table| - 1;
      var c := ScoreEntry(engine, table[n], text);
      CandidatesAreFiltered(engine, table[..n], text);
      ScoreAllStep(engine, table, text);
      FilterAppend(ScoreAll(engine, table[..n], text), [c], AboveInclusionThreshold);
    }
  }

  /** A record is a candidate exactly when it is some table entry scored
      above 0.3. */
  lemma CandidatesMembers(engine: RegexEngine, table: seq<Entry>, text: string)
    ensures forall c :: c in Candidates(engine, table, text) <==>
      exists i :: 0 <= i < |table| && c == ScoreEntry(engine, table[i], text) && c.confidence > 0.3
  {
    CandidatesAreFiltered(engine, table, text);
    var all := ScoreAll(engine, table, text);
    var cands := Candidates(engine, table, text);
    forall c
      ensures c in cands <==> exists i :: 0 <= i < |table| && c == ScoreEntry(engine, table[i], text) && c.confidence > 0.3
    {
      if c in cands {
        assert c in all && AboveInclusionThreshold(c);
        var i :| 0 <= i < |all| && all[i] == c;
        assert c == ScoreEntry(engine, table[i], text);
      }
      if exists i :: 0 <= i < |table| && c == ScoreEntry(engine, table[i], text) && c.confidence > 0.3 {
        var i :| 0 <= i < |table| && c == ScoreEntry(engine, table[i], text) && c.confidence > 0.3;
        assert all[i] == c;
        assert c in all && AboveInclusionThreshold(c);
      }
    }
  }

  // ----- The whole extraction -----

  /** `extract_cpt_codes(note)` for the table `table`. */
  function ExtractCodes(engine: RegexEngine, table: seq<Entry>, note: string): seq<CptCode> {
    BusinessRules(SortDesc(Candidates(engine, table, CleanText(note))))
  }

  /** Every extracted code is a table entry scored against the cleaned note,
      with confidence above 0.3 and at most 1; a code that is not an E&M code
      has confidence above 0.5. */
  lemma ExtractCodesFromTable(engine: RegexEngine, table: seq<Entry>, note: string)
    ensures forall y :: y in ExtractCodes(engine, table, note) ==>
      (exists i :: 0 <= i < |table| && y == ScoreEntry(engine, table[i], CleanText(note)))
      && 0.3 < y.confidence <= 1.0
      && (!IsEvaluation(y) ==> y.confidence > 0.5)
  {
    var cands := Candidates(engine, table, CleanText(note));
    CandidatesMembers(engine, table, CleanText(note));
    SortDescMembers(cands);
    BusinessRulesFromInput(SortDesc(cands));
    BusinessRulesProcedureFloor(SortDesc(cands));
  }

  /** The extracted codes come highest confidence first, hold at most one E&M
      code, and never two codes of the same category whose codes share their
      first three characters. */
  lemma ExtractCodesShape(engine: RegexEngine, table: seq<Entry>, note: string)
    ensures SortedDesc(ExtractCodes(engine, table, note))
    ensures forall i, j :: 0 <= i < j < |ExtractCodes(engine, table, note)| ==>
      !SameGroup(ExtractCodes(engine, table, note)[i], ExtractCodes(engine, table, note)[j])
      && !(IsEvaluation(ExtractCodes(engine, table, note)[i]) && IsEvaluation(ExtractCodes(engine, table, note)[j]))
  {
    var sorted := SortDesc(Candidates(engine, table, CleanText(note)));
    BusinessRulesOrder(sorted, 0.0);
    BusinessRulesGroupsDistinct(sorted);
    BusinessRulesSingleEvaluation(sorted);
  }

  lemma {:induction false} KeywordHitsOfEmpty(keywords: seq<string>)
    requires forall k :: k in keywords ==> k != []
    ensures KeywordHits("", keywords) == 0
  {
    if keywords != [] {
      var n := |keywords| - 1;
      assert keywords[n] in keywords;
      assert forall k :: k in keywords[..n] ==> k in keywords;
      KeywordHitsOfEmpty(keywords[..n]);
      assert |Lower(keywords[n])| > 0;
    }
  }

  lemma {:induction false} PatternHitsOfEmpty(engine: RegexEngine, compiled: seq<CompiledPattern>)
    requires forall p :: p in compiled ==> !Search(engine, p, "")
    ensures PatternHits(engine, "", compiled) == 0
  {
    if compiled != [] {
      var n := |compiled| - 1;
      assert compiled[n] in compiled;
      assert forall p :: p in compiled[..n] ==> p in compiled;
      PatternHitsOfEmpty(engine, compiled[..n]);
    }
  }

  /** A note that cleans to the empty text yields no codes, provided no
      keyword of the table is empty and no pattern matches the empty text. */
  lemma ExtractCodesOfBlankNote(engine: RegexEngine, table: seq<Entry>, note: string)
    requires CleanText(note) == ""
    requires forall i :: 0 <= i < |table| ==> forall k :: k in table[i].1.keywords ==> k != []
    requires forall i :: 0 <= i < |table| ==> forall p :: p in table[i].1.compiled ==> !Search(engine, p, "")
    ensures ExtractCodes(engine, table, note) == []
  {
    forall i | 0 <= i < |table|
      ensures ScoreEntry(engine, table[i], "").confidence == 0.0
    {
      KeywordHitsOfEmpty(table[i].1.keywords);
      PatternHitsOfEmpty(engine, table[i].1.compiled);
      ConfidenceWithoutHits(engine, "", table[i].1);
    }
    CandidatesOfUnscored(engine, table, "");
    BusinessRulesOfNothing();
  }

  /** No entry scored at most 0.3 becomes a candidate. */
  lemma {:induction false} CandidatesOfUnscored(engine: RegexEngine, table: seq<Entry>, text: string)
    requires forall i :: 0 <= i < |table| ==> ScoreEntry(engine, table[i], text).confidence <= 0.3
    ensures Candidates(engine, table, text) == []
  {
    if table != [] {
      CandidatesOfUnscored(engine, table[..|table| - 1], text);
    }
  }

  lemma BusinessRulesOfNothing()
    ensures BusinessRules(SortDesc([])) == []
  {
    assert Refined([]) == [];
    assert Deduplicate([], GroupKey) == [];
  }

  /** For a list sorted highest first, `max` of the confidences is the first
      one. */
  lemma HighestOfSorted(codes: seq<CptCode>)
    requires SortedDesc(codes)
    ensures HighestConfidence(codes) == (if codes == [] then 0.0 else codes[0].confidence)
  {
    if codes != [] {
      var h := HighestConfidence(codes);
      var c :| c in codes && c.confidence == h;
      var k :| 0 <= k < |codes| && codes[k] == c;
      assert codes[0].confidence >= codes[k].confidence;
      assert codes[0] in codes;
    }
  }

  /** The report on an extraction: its highest confidence is that of the first
      code (0 when there is none), and the no-codes message is given exactly
      when nothing was extracted. With a table that has no E&M entry, the
      no-E&M message is always given. */
  lemma ExtractionReport(engine: RegexEngine, table: seq<Entry>, note: string)
    ensures var codes := ExtractCodes(engine, table, note);
      DetailsOf(codes, note).highestConfidence == (if codes == [] then 0.0 else codes[0].confidence)
      && (NoCodesMessage in DetailsOf(codes, note).recommendations <==> codes == [])
    ensures (forall i :: 0 <= i < |table| ==> table[i].1.category != Evaluation) ==>
      NoEvaluationMessage in DetailsOf(ExtractCodes(engine, table, note), note).recommendations
  {
    var codes := ExtractCodes(engine, table, note);
    ExtractCodesShape(engine, table, note);
    HighestOfSorted(codes);
    RecommendationsExact(codes, AnalyzeNoteComplexity(note));
    if forall i :: 0 <= i < |table| ==> table[i].1.category != Evaluation {
      ExtractCodesFromTable(engine, table, note);
      forall c | c in codes ensures c.category != Evaluation {
        var i :| 0 <= i < |table| && c == ScoreEntry(engine, table[i], CleanText(note));
      }
    }
  }

  // ----- The extractor object -----

  class Extractor {
    /** `cpt_mapping`: the code table, in its insertion order. */
    var mapping: seq<Entry>
    /** The regular-expression library the patterns are compiled with. */
    const engine: RegexEngine

    /** `__init__`: store the table and compile its patterns. */
    constructor (table: seq<Entry>, engine: RegexEngine)
      ensures this.engine == engine
      ensures mapping == CompileTable(table)
      ensures IsCompiled(mapping)
    {
      this.engine := engine;
      mapping := table;
      new;
      CompilePatterns();
      CompileTableProperties(engine, table, "");
    }

    /** `_compile_patterns`: store each entry's compiled patterns. */
    method CompilePatterns()
      modifies this
      ensures mapping == CompileTable(old(mapping))
    {
      ghost var original := mapping;
      var i := 0;
      while i < |mapping|
        invariant |mapping| == |original| && 0 <= i <= |mapping|
        invariant forall j :: 0 <= j < i ==> mapping[j] == CompileEntry(original[j])
        invariant forall j :: i <= j < |mapping| ==> mapping[j] == original[j]
      {
        var (code, info) := mapping[i];
        mapping := mapping[i := (code, info.(compiled := CompileAll(info.patterns)))];
        i := i + 1;
      }
    }

    /** `_calculate_confidence(text, code_info)`. */
    method CalculateConfidence(text: string, info: CodeInfo) returns (c: real)
      ensures c == Confidence(engine, text, info)
    {
      var confidence := 0.0;
      var keywordMatches := 0;
      var i := 0;
      while i < |info.keywords|
        invariant 0 <= i <= |info.keywords|
        invariant keywordMatches == KeywordHits(text, info.keywords[..i])
      {
        assert info.keywords[..i + 1][..i] == info.keywords[..i];
        if IsSubstring(Lower(info.keywords[i]), text) {
          keywordMatches := keywordMatches + 1;
        }
        i := i + 1;
      }
      assert info.keywords[..i] == info.keywords;
      if |info.keywords| > 0 {
        confidence := confidence + (keywordMatches as real / |info.keywords| as real) * KeywordWeight;
      }
      var patternMatches := 0;
      var j := 0;
      while j < |info.compiled|
        invariant 0 <= j <= |info.compiled|
        invariant patternMatches == PatternHits(engine, text, info.compiled[..j])
      {
        assert info.compiled[..j + 1][..j] == info.compiled[..j];
        if Search(engine, info.compiled[j], text) {
          patternMatches := patternMatches + 1;
        }
        j := j + 1;
      }
      assert info.compiled[..j] == info.compiled;
      if |info.compiled| > 0 {
        confidence := confidence + Min(patternMatches as real / |info.compiled| as real, 1.0) * PatternWeight;
      }
      c := Min(confidence, 1.0);
    }

    /** `_apply_business_rules(codes, text)`; the note text is not used. */
    method ApplyBusinessRules(codes: seq<CptCode>, text: string) returns (r: seq<CptCode>)
      ensures r == BusinessRules(codes)
    {
      var refined := [];
      var emCodes := Filter(codes, IsEvaluation);
      if |emCodes| > 0 {
        refined := refined + [FirstMax(emCodes)];
      }
      var procedureCodes := Filter(codes, IsProcedure);
      refined := refined + Filter(procedureCodes, AboveProcedureThreshold);
      assert refined == Refined(codes);

      var finalCodes := KeepBestPerGroup(refined);
      r := SortDesc(finalCodes);
    }

    /** Rule 3 of `_apply_business_rules`: the loop over `refined_codes` that
        fills `seen_categories`, and the list of its values. */
    method KeepBestPerGroup(refined: seq<CptCode>) returns (finalCodes: seq<CptCode>)
      ensures finalCodes == Deduplicate(refined, GroupKey)
    {
      var order: seq<string> := [];
      var seen: map<string, CptCode> := map[];
      var i := 0;
      while i < |refined|
        invariant 0 <= i <= |refined|
        invariant Seen(order, seen) == Scan(refined[..i], GroupKey)
      {
        assert refined[..i + 1][..i] == refined[..i];
        var code := refined[i];
        var categoryKey := GroupKey(code);
        if categoryKey !in seen || code.confidence > seen[categoryKey].confidence {
          if categoryKey !in seen {
            order := order + [categoryKey];
          }
          seen := seen[categoryKey := code];
        }
        i := i + 1;
      }
      assert refined[..i] == refined;
      assert WellFormed(Seen(order, seen), GroupKey);
      finalCodes := seq(|order|, j requires 0 <= j < |order| && order[j] in seen => seen[order[j]]);
      assert finalCodes == Deduplicate(refined, GroupKey) by {
        var d := Deduplicate(refined, GroupKey);
        assert |finalCodes| == |d|;
        forall j | 0 <= j < |order| ensures finalCodes[j] == d[j] {
          assert order[j] in seen;
        }
      }
    }

    /** `extract_cpt_codes(medical_note)`. */
    method ExtractCptCodes(note: string) returns (r: seq<CptCode>)
      ensures r == ExtractCodes(engine, mapping, note)
    {
      var cleaned := CleanText(note);
      var found := [];
      var i := 0;
      while i < |mapping|
        invariant 0 <= i <= |mapping|
        invariant found == Candidates(engine, mapping[..i], cleaned)
      {
        var entry := mapping[i];
        var confidence := CalculateConfidence(cleaned, entry.1);
        var c := CptCode(entry.0, entry.1.description, entry.1.category, confidence);
        assert c == ScoreEntry(engine, entry, cleaned);
        if confidence > InclusionThreshold {
          found := found + [c];
        }
        CandidatesStep(engine, mapping, i, cleaned);
        i := i + 1;
      }
      assert mapping[..i] == mapping;
      found := SortDesc(found);
      r := ApplyBusinessRules(found, cleaned);
    }

    /** `extract_with_details(medical_note)`. */
    method ExtractWithDetails(note: string) returns (d: Details)
      ensures d == DetailsOf(ExtractCodes(engine, mapping, note), note)
    {
      var codes := ExtractCptCodes(note);
      var analysis := AnalyzeNoteComplexity(note);
      d := Details(
        ReportedCodes(codes),
        analysis,
        |codes|,
        HighestConfidence(codes),
        GenerateRecommendations(codes, analysis));
    }
  }
}
