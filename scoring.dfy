/**
 * The confidence scorer `_calculate_confidence`: the fraction of a code's
 * keywords found in the cleaned note, weighted 0.6, plus the fraction of its
 * compiled patterns that find a match, weighted 0.4, capped at 1. A component
 * whose list is empty is left out of the sum.
 *
 * Confidence is an exact rational here; the source computes it in IEEE
 * double precision.
 */
module Scoring {
  import opened Text
  import opened Model

  const KeywordWeight: real := 0.6
  const PatternWeight: real := 0.4

  /** The number of keywords `k` with `k.lower() in text`, counted over the
      list in order (the loop of the source). */
  function KeywordHits(text: string, keywords: seq<string>): (n: nat)
    ensures n <= |keywords|
  {
    if keywords == [] then 0
    else
      KeywordHits(text, keywords[..|keywords| - 1])
      + (if IsSubstring(Lower(keywords[|keywords| - 1]), text) then 1 else 0)
  }

  /** `pattern.search(text)` for a compiled pattern. */
  predicate Search(engine: RegexEngine, p: CompiledPattern, text: string) {
    engine(p.source, text)
  }

  /** The number of compiled patterns that find a match in `text`. */
  function PatternHits(engine: RegexEngine, text: string, compiled: seq<CompiledPattern>): (n: nat)
    ensures n <= |compiled|
  {
    if compiled == [] then 0
    else
      PatternHits(engine, text, compiled[..|compiled| - 1])
      + (if Search(engine, compiled[|compiled| - 1], text) then 1 else 0)
  }

  function Min(a: real, b: real): real {
    if a <= b then a else b
  }

  lemma RatioBounds(hits: nat, total: nat)
    requires total > 0
    ensures 0.0 <= hits as real / total as real
    ensures hits <= total ==> hits as real / total as real <= 1.0
  {
  }

  /** The score the source computes from the two hit counts and the two list
      lengths. The cap keeps it at most 1; it is never negative. */
  function Score(kwHits: nat, kwTotal: nat, patHits: nat, patTotal: nat): (c: real)
    ensures 0.0 <= c <= 1.0
  {
    var kw := if kwTotal > 0 then (kwHits as real / kwTotal as real) * KeywordWeight else 0.0;
    var pat := if patTotal > 0 then Min(patHits as real / patTotal as real, 1.0) * PatternWeight else 0.0;
    RatioBounds(kwHits, if kwTotal > 0 then kwTotal else 1);
    RatioBounds(patHits, if patTotal > 0 then patTotal else 1);
    Min(kw + pat, 1.0)
  }

  /** `_calculate_confidence(text, code_info)`. */
  function Confidence(engine: RegexEngine, text: string, info: CodeInfo): real {
    Score(
      KeywordHits(text, info.keywords), |info.keywords|,
      PatternHits(engine, text, info.compiled), |info.compiled|)
  }

  // ----- The score -----

  /** No hits give confidence 0, whatever the list lengths. */
  lemma ScoreNoHits(kwTotal: nat, patTotal: nat)
    ensures Score(0, kwTotal, 0, patTotal) == 0.0
  {
  }

  /** All hits give the sum of the weights of the non-empty lists: 1 when both
      lists are non-empty, 0.6 with keywords only, 0.4 with patterns only. */
  lemma ScoreAllHits(kwTotal: nat, patTotal: nat)
    ensures Score(kwTotal, kwTotal, patTotal, patTotal)
      == (if kwTotal > 0 then 0.6 else 0.0) + (if patTotal > 0 then 0.4 else 0.0)
  {
    if kwTotal > 0 {
      assert kwTotal as real / kwTotal as real == 1.0;
    }
    if patTotal > 0 {
      assert patTotal as real / patTotal as real == 1.0;
    }
  }

  /** With hit counts that do not exceed their list lengths, neither cap takes
      effect: the score is exactly the weighted sum of the two ratios. */
  lemma ScoreUncapped(kwHits: nat, kwTotal: nat, patHits: nat, patTotal: nat)
    requires kwHits <= kwTotal && patHits <= patTotal
    ensures Score(kwHits, kwTotal, patHits, patTotal)
      == (if kwTotal > 0 then 0.6 * (kwHits as real / kwTotal as real) else 0.0)
       + (if patTotal > 0 then 0.4 * (patHits as real / patTotal as real) else 0.0)
  {
    RatioBounds(kwHits, if kwTotal > 0 then kwTotal else 1);
    RatioBounds(patHits, if patTotal > 0 then patTotal else 1);
  }

  lemma RatioMonotone(a: nat, b: nat, n: nat)
    requires a <= b && n > 0
    ensures a as real / n as real <= b as real / n as real
  {
  }

  /** Raising either hit count, with the other fixed or raised too, never
      lowers the score. */
  lemma ScoreMonotone(kw1: nat, kw2: nat, kwTotal: nat, pat1: nat, pat2: nat, patTotal: nat)
    requires kw1 <= kw2 && pat1 <= pat2
    ensures Score(kw1, kwTotal, pat1, patTotal) <= Score(kw2, kwTotal, pat2, patTotal)
  {
    if kwTotal > 0 {
      RatioMonotone(kw1, kw2, kwTotal);
    }
    if patTotal > 0 {
      RatioMonotone(pat1, pat2, patTotal);
    }
  }

  /** Patterns alone can lift a code over the 0.3 inclusion threshold only when
      more than three quarters of them match. */
  lemma PatternsAloneOverInclusion(kwTotal: nat, patHits: nat, patTotal: nat)
    requires patHits <= patTotal
    requires Score(0, kwTotal, patHits, patTotal) > 0.3
    ensures 4 * patHits > 3 * patTotal
  {
    ScoreUncapped(0, kwTotal, patHits, patTotal);
    assert patTotal > 0;
    var r := patHits as real / patTotal as real;
    assert r > 0.75;
    RatioScaled(r, 0.75, patHits, patTotal);
  }

  lemma RatioScaled(r: real, bound: real, hits: nat, total: nat)
    requires total > 0 && r == hits as real / total as real && r > bound
    ensures hits as real > bound * total as real
  {
    assert hits as real == r * total as real;
    assert (r - bound) * total as real > 0.0;
  }

  /** Keywords alone can lift a code over the 0.5 procedure threshold only when
      more than five sixths of them are found. */
  lemma KeywordsAloneOverProcedureFloor(kwHits: nat, kwTotal: nat, patTotal: nat)
    requires kwHits <= kwTotal
    requires Score(kwHits, kwTotal, 0, patTotal) > 0.5
    ensures 6 * kwHits > 5 * kwTotal
  {
    ScoreUncapped(kwHits, kwTotal, 0, patTotal);
    assert kwTotal > 0;
    var r := kwHits as real / kwTotal as real;
    assert 6.0 * r > 5.0;
    RatioScaled(r, 5.0 / 6.0, kwHits, kwTotal);
  }

  // ----- Hits and the note text -----

  /** A keyword found in a text is found in every text that contains it. */
  lemma {:induction false} KeywordHitsMonotone(text: string, wider: string, keywords: seq<string>)
    requires IsSubstring(text, wider)
    ensures KeywordHits(text, keywords) <= KeywordHits(wider, keywords)
  {
    if keywords != [] {
      var k := Lower(keywords[|keywords| - 1]);
      KeywordHitsMonotone(text, wider, keywords[..|keywords| - 1]);
      if IsSubstring(k, text) {
        SubstringTransitive(k, text, wider);
      }
    }
  }

  lemma {:induction false} PatternHitsMonotone(engine: RegexEngine, text: string, wider: string, compiled: seq<CompiledPattern>)
    requires forall p :: p in compiled && Search(engine, p, text) ==> Search(engine, p, wider)
    ensures PatternHits(engine, text, compiled) <= PatternHits(engine, wider, compiled)
  {
    if compiled != [] {
      PatternHitsMonotone(engine, text, wider, compiled[..|compiled| - 1]);
      assert compiled[|compiled| - 1] in compiled;
    }
  }

  /** Confidence never drops when the note grows around the old text (say, by
      an added keyword phrase), provided every pattern that matched before
      still matches. The proviso is needed: a regular expression with anchors
      or look-around can stop matching a longer text. */
  lemma ConfidenceMonotone(engine: RegexEngine, text: string, wider: string, info: CodeInfo)
    requires IsSubstring(text, wider)
    requires forall p :: p in info.compiled && Search(engine, p, text) ==> Search(engine, p, wider)
    ensures Confidence(engine, text, info) <= Confidence(engine, wider, info)
  {
    KeywordHitsMonotone(text, wider, info.keywords);
    PatternHitsMonotone(engine, text, wider, info.compiled);
    ScoreMonotone(
      KeywordHits(text, info.keywords), KeywordHits(wider, info.keywords), |info.keywords|,
      PatternHits(engine, text, info.compiled), PatternHits(engine, wider, info.compiled), |info.compiled|);
  }

  /** A code none of whose keywords and patterns hit gets confidence 0. */
  lemma ConfidenceWithoutHits(engine: RegexEngine, text: string, info: CodeInfo)
    requires KeywordHits(text, info.keywords) == 0 && PatternHits(engine, text, info.compiled) == 0
    ensures Confidence(engine, text, info) == 0.0
  {
    ScoreNoHits(|info.keywords|, |info.compiled|);
  }
}
