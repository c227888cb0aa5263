/**
 * The note analysis `_analyze_note_complexity`, the recommendation list
 * `_generate_recommendations` and the report `extract_with_details` puts
 * together from them.
 */
module Reporting {
  import opened Text
  import opened Normalizer
  import opened Model
  import opened Rules

  // ----- Words -----

  /** The leading run of non-whitespace characters of `s`. */
  function TakeWord(s: string): (w: string)
    ensures |w| <= |s| && w == s[..|w|]
    ensures forall i :: 0 <= i < |w| ==> !IsSpace(w[i])
    ensures |w| == |s| || IsSpace(s[|w|])
  {
    if s == [] || IsSpace(s[0]) then []
    else
      var w := TakeWord(s[1..]);
      assert ([s[0]] + w)[1..] == w;
      [s[0]] + w
  }

  /** `s.split()`: the maximal runs of non-whitespace characters, in order. */
  function Words(s: string): seq<string>
    decreases |s|
  {
    var t := TrimStart(s);
    if t == [] then []
    else
      var w := TakeWord(t);
      [w] + Words(t[|w|..])
  }

  /** A word: non-empty and free of whitespace. */
  predicate IsWord(w: string) {
    w != [] && forall i :: 0 <= i < |w| ==> !IsSpace(w[i])
  }

  /** `" ".join(ws)`. */
  function JoinWords(ws: seq<string>): string {
    if ws == [] then []
    else if |ws| == 1 then ws[0]
    else ws[0] + " " + JoinWords(ws[1..])
  }

  /** Every piece `split` returns is a word. */
  lemma {:induction false} WordsAreWords(s: string)
    ensures forall w :: w in Words(s) ==> IsWord(w)
    decreases |s|
  {
    var t := TrimStart(s);
    if t != [] {
      var w := TakeWord(t);
      assert !IsSpace(t[0]);
      WordsAreWords(t[|w|..]);
    }
  }

  lemma TakeWordOfJoin(w: string, rest: string)
    requires IsWord(w)
    requires rest == [] || IsSpace(rest[0])
    ensures TakeWord(w + rest) == w
    decreases |w|
  {
    var s := w + rest;
    if |w| > 1 {
      assert s[1..] == w[1..] + rest;
      TakeWordOfJoin(w[1..], rest);
    } else {
      assert s[1..] == rest;
    }
  }

  /** Words joined by spaces start with the first word's first character. */
  lemma JoinStartsWithWord(ws: seq<string>)
    requires ws != [] && IsWord(ws[0])
    ensures JoinWords(ws) != [] && !IsSpace(JoinWords(ws)[0])
  {
    if |ws| > 1 {
      assert JoinWords(ws)[0] == ws[0][0];
    }
  }

  lemma TrimSpaceBeforeWords(ws: seq<string>)
    requires ws != [] && IsWord(ws[0])
    ensures TrimStart(" " + JoinWords(ws)) == JoinWords(ws)
  {
    JoinStartsWithWord(ws);
    TrimStartCons(' ', JoinWords(ws));
    assert " " + JoinWords(ws) == [' '] + JoinWords(ws);
  }

  lemma WordsAtWord(s: string)
    requires s != [] && !IsSpace(s[0])
    ensures Words(s) == [TakeWord(s)] + Words(s[|TakeWord(s)|..])
  {
    assert TrimStart(s) == s;
  }

  /** Leading whitespace does not change the words. */
  lemma WordsAfterTrim(s: string)
    ensures Words(s) == Words(TrimStart(s))
  {
    var t := TrimStart(s);
    assert TrimStart(t) == t;
  }

  lemma HeadTail(ws: seq<string>)
    requires ws != []
    ensures ws == [ws[0]] + ws[1..]
  {
  }

  /** Splitting words joined by single spaces gives the words back. */
  lemma {:induction false} WordsOfJoin(ws: seq<string>)
    requires forall w :: w in ws ==> IsWord(w)
    ensures Words(JoinWords(ws)) == ws
  {
    if ws != [] {
      var w := ws[0];
      var s := JoinWords(ws);
      assert ws[0] in ws;
      var rest := if |ws| == 1 then [] else " " + JoinWords(ws[1..]);
      assert s == w + rest;
      JoinStartsWithWord(ws);
      WordsAtWord(s);
      TakeWordOfJoin(w, rest);
      assert s[|w|..] == rest;
      if |ws| > 1 {
        assert ws[1] in ws;
        TrimSpaceBeforeWords(ws[1..]);
        WordsAfterTrim(rest);
        WordsOfJoin(ws[1..]);
        assert Words(rest) == ws[1..];
      } else {
        assert Words(rest) == [];
      }
      assert Words(s) == [w] + Words(rest);
      HeadTail(ws);
    }
  }

  // ----- Words and the normaliser -----

  /** Leading whitespace of any length does not change the words. */
  lemma WordsOfSpacePrefix(a: string, b: string)
    requires AllSpace(a)
    ensures Words(a + b) == Words(b)
  {
    TrimStartOfSpaces(a, b);
    WordsAfterTrim(a + b);
    WordsAfterTrim(b);
  }

  lemma ConcatAssoc<T>(x: seq<T>, y: seq<T>, z: seq<T>)
    ensures (x + y) + z == x + (y + z)
  {
  }

  /** A word followed by whitespace or nothing is the first word. */
  lemma WordsSplitAtWord(w: string, rest: string)
    requires IsWord(w)
    requires rest == [] || IsSpace(rest[0])
    ensures Words(w + rest) == [w] + Words(rest)
  {
    TakeWordOfJoin(w, rest);
    WordsAtWord(w + rest);
    assert (w + rest)[|w|..] == rest;
  }

  /** A text that does not start with whitespace starts with its first word. */
  lemma SplitAtTakeWord(s: string)
    requires s != [] && !IsSpace(s[0])
    ensures IsWord(TakeWord(s)) && s == TakeWord(s) + s[|TakeWord(s)|..]
    ensures s[|TakeWord(s)|..] == [] || IsSpace(s[|TakeWord(s)|..][0])
  {
  }

  /** Leading whitespace, before and after appending, does not change the
      words. */
  lemma WordsAfterLead(a: string, b: string)
    ensures Words(a + b) == Words(TrimStart(a) + b)
    ensures Words(a) == Words(TrimStart(a))
  {
    var t := TrimStart(a);
    var lead := a[..|a| - |t|];
    TrimStartSplit(a);
    ConcatAssoc(lead, t, b);
    WordsOfSpacePrefix(lead, t + b);
    WordsOfSpacePrefix(lead, t);
  }

  /** The first word of a text, before and after appending text that starts
      with whitespace. */
  lemma WordsAppendAtWord(t: string, b: string)
    requires t != [] && !IsSpace(t[0])
    requires b == [] || IsSpace(b[0])
    ensures Words(t + b) == [TakeWord(t)] + Words(t[|TakeWord(t)|..] + b)
    ensures Words(t) == [TakeWord(t)] + Words(t[|TakeWord(t)|..])
  {
    var w := TakeWord(t);
    var rest := t[|w|..];
    SplitAtTakeWord(t);
    ConcatAssoc(w, rest, b);
    assert rest + b == [] || IsSpace((rest + b)[0]) by {
      if rest == [] {
        assert rest + b == b;
      }
    }
    WordsSplitAtWord(w, rest + b);
    WordsSplitAtWord(w, rest);
  }

  /** Splitting at a whitespace boundary splits the words. */
  lemma {:induction false} WordsAppend(a: string, b: string)
    requires b == [] || IsSpace(b[0])
    ensures Words(a + b) == Words(a) + Words(b)
    decreases |a|
  {
    var t := TrimStart(a);
    WordsAfterLead(a, b);
    if t == [] {
      assert t + b == b;
    } else {
      var w := TakeWord(t);
      var rest := t[|w|..];
      WordsAppendAtWord(t, b);
      WordsAppend(rest, b);
      ConcatAssoc([w], Words(rest), Words(b));
    }
  }

  /** Stripping does not change the words. */
  lemma WordsOfStrip(x: string)
    ensures Words(Strip(x)) == Words(x)
  {
    var t := TrimStart(x);
    WordsAfterTrim(x);
    var r := TrimEnd(t);
    var trail := t[|r|..];
    TrimEndSplit(t);
    WordsAppend(r, trail);
    WordsOfSpacePrefix(trail, []);
    assert trail + [] == trail;
  }

  lemma ReplaceAppend(a: string, b: string)
    ensures ReplaceDisallowed(a + b) == ReplaceDisallowed(a) + ReplaceDisallowed(b)
  {
  }

  /** The replacement leaves whitespace alone. */
  lemma ReplaceOfSpaces(a: string)
    requires AllSpace(a)
    ensures ReplaceDisallowed(a) == a
  {
  }

  /** One step of the collapse at a run of whitespace, seen through the
      replacement and the split. */
  lemma ReplaceCollapseAtSpace(x: string)
    requires x != [] && IsSpace(x[0])
    ensures |TrimStart(x)| < |x|
    ensures Words(ReplaceDisallowed(CollapseWhitespace(x))) == Words(ReplaceDisallowed(CollapseWhitespace(TrimStart(x))))
    ensures Words(ReplaceDisallowed(x)) == Words(ReplaceDisallowed(TrimStart(x)))
  {
    var t := TrimStart(x);
    var lead := x[..|x| - |t|];
    assert x == lead + t;
    CollapseAtSpace(x);
    ReplaceAppend([' '], CollapseWhitespace(t));
    ReplaceOfSpaces([' ']);
    WordsOfSpacePrefix([' '], ReplaceDisallowed(CollapseWhitespace(t)));
    ReplaceAppend(lead, t);
    ReplaceOfSpaces(lead);
    WordsOfSpacePrefix(lead, ReplaceDisallowed(t));
  }

  /** One step of the collapse at a word, seen through the replacement and
      the split. */
  lemma ReplaceCollapseAtWord(x: string)
    requires x != [] && !IsSpace(x[0])
    ensures |x[|TakeWord(x)|..]| < |x|
    ensures Words(ReplaceDisallowed(CollapseWhitespace(x))) == Words(ReplaceDisallowed(TakeWord(x))) + Words(ReplaceDisallowed(CollapseWhitespace(x[|TakeWord(x)|..])))
    ensures Words(ReplaceDisallowed(x)) == Words(ReplaceDisallowed(TakeWord(x))) + Words(ReplaceDisallowed(x[|TakeWord(x)|..]))
  {
    SplitAtTakeWord(x);
    var w := TakeWord(x);
    var rest := x[|w|..];
    CollapseOfWord(w, rest);
    if rest != [] {
      CollapseAtSpace(rest);
    }
    var c := CollapseWhitespace(rest);
    assert c == [] || IsSpace(c[0]);
    ReplaceAppend(w, c);
    ReplaceAppend(w, rest);
    WordsAppend(ReplaceDisallowed(w), ReplaceDisallowed(c));
    WordsAppend(ReplaceDisallowed(w), ReplaceDisallowed(rest));
  }

  /** Blanking disallowed characters before or after the collapse gives the
      same words. */
  lemma {:induction false} WordsReplaceCollapse(x: string)
    ensures Words(ReplaceDisallowed(CollapseWhitespace(x))) == Words(ReplaceDisallowed(x))
    decreases |x|
  {
    if x == [] {
    } else if IsSpace(x[0]) {
      ReplaceCollapseAtSpace(x);
      WordsReplaceCollapse(TrimStart(x));
    } else {
      ReplaceCollapseAtWord(x);
      WordsReplaceCollapse(x[|TakeWord(x)|..]);
    }
  }

  /** Cleaning keeps the words of the lower-cased note once its disallowed
      characters are blanked: every separator the note had, and every
      disallowed character, still separates words, and nothing else does. */
  lemma WordsOfCleanText(s: string)
    ensures Words(CleanText(s)) == Words(ReplaceDisallowed(Lower(s)))
  {
    var collapsed := CollapseWhitespace(Lower(s));
    WordsOfStrip(ReplaceDisallowed(collapsed));
    WordsReplaceCollapse(Lower(s));
  }

  /** A run of non-whitespace characters passes through the collapse
      unchanged. */
  lemma {:induction false} CollapseOfWord(w: string, rest: string)
    requires forall i :: 0 <= i < |w| ==> !IsSpace(w[i])
    ensures CollapseWhitespace(w + rest) == w + CollapseWhitespace(rest)
  {
    if w != [] {
      assert w + rest == [w[0]] + (w[1..] + rest);
      CollapseCons(w[0], w[1..] + rest);
      CollapseOfWord(w[1..], rest);
      assert w == [w[0]] + w[1..];
    } else {
      assert w + rest == rest;
    }
  }

  lemma {:induction false} TrimEndAfterPrefix(p: string, c: string)
    requires TrimEnd(c) != []
    ensures TrimEnd(p + c) == p + TrimEnd(c)
  {
    if IsSpace(c[|c| - 1]) {
      var c' := c[..|c| - 1];
      assert (p + c)[..|p + c| - 1] == p + c';
      TrimEndAfterPrefix(p, c');
    }
  }

  /** One step of the split and the collapse at a run of whitespace. */
  lemma JoinCollapseAtSpace(s: string)
    requires s != [] && IsSpace(s[0])
    ensures |TrimStart(s)| < |s|
    ensures Words(s) == Words(TrimStart(s))
    ensures Strip(CollapseWhitespace(s)) == Strip(CollapseWhitespace(TrimStart(s)))
  {
    var t := TrimStart(s);
    CollapseAtSpace(s);
    WordsAfterTrim(s);
    TrimStartCons(' ', CollapseWhitespace(t));
  }

  /** One step of the split at a word: the word, then the words after its
      separating whitespace. */
  lemma WordsAtWordStep(s: string)
    requires s != [] && !IsSpace(s[0])
    ensures |TrimStart(s[|TakeWord(s)|..])| < |s|
    ensures Words(s) == [TakeWord(s)] + Words(TrimStart(s[|TakeWord(s)|..]))
  {
    SplitAtTakeWord(s);
    var w := TakeWord(s);
    var rest := s[|w|..];
    WordsSplitAtWord(w, rest);
    WordsAfterTrim(rest);
  }

  /** One step of the collapse at a word: the word, then one space and the
      collapse of the text after the separating whitespace, if any. */
  lemma CollapseAtWord(s: string)
    requires s != [] && !IsSpace(s[0])
    ensures s[|TakeWord(s)|..] == [] ==> CollapseWhitespace(s) == TakeWord(s)
    ensures s[|TakeWord(s)|..] != [] ==>
      CollapseWhitespace(s) == TakeWord(s) + [' '] + CollapseWhitespace(TrimStart(s[|TakeWord(s)|..]))
  {
    SplitAtTakeWord(s);
    var w := TakeWord(s);
    var rest := s[|w|..];
    CollapseOfWord(w, rest);
    if rest == [] {
      assert w + rest == w;
    } else {
      CollapseAtSpace(rest);
      ConcatAssoc(w, [' '], CollapseWhitespace(TrimStart(rest)));
    }
  }

  /** Stripping a word followed by one space leaves the word. */
  lemma StripWordSpace(w: string)
    requires IsWord(w)
    ensures Strip(w + [' ']) == w
  {
    var x := w + [' '];
    assert x[0] == w[0];
    TrimStartAtNonSpace(x);
    TrimEndAtSpace(x);
    assert x[..|x| - 1] == w;
    TrimEndAtNonSpace(w);
  }

  /** Words joined by spaces, with a word in front. */
  lemma JoinCons(w: string, ws: seq<string>)
    requires ws != []
    ensures JoinWords([w] + ws) == w + " " + JoinWords(ws)
  {
    assert ([w] + ws)[1..] == ws;
  }

  /** The collapse of a text that starts with a word starts with a
      non-whitespace character, so stripping it only trims its end. */
  lemma StripCollapseAtWord(t: string)
    requires t != [] && !IsSpace(t[0])
    ensures TrimStart(CollapseWhitespace(t)) == CollapseWhitespace(t)
    ensures Strip(CollapseWhitespace(t)) == TrimEnd(CollapseWhitespace(t))
  {
    var c := CollapseWhitespace(t);
    assert t == [t[0]] + t[1..];
    CollapseCons(t[0], t[1..]);
    TrimStartAtNonSpace(c);
  }

  /** The words of a text that starts with a word, joined, are not empty. */
  lemma JoinWordsAtWord(t: string)
    requires t != [] && !IsSpace(t[0])
    ensures Words(t) != [] && JoinWords(Words(t)) != []
  {
    WordsAtWord(t);
    var ws := Words(t);
    WordsAreWords(t);
    assert ws[0] in ws;
    JoinStartsWithWord(ws);
  }

  /** Stripping a word, a space and a text that starts with a non-whitespace
      character trims only the text's end. */
  lemma StripWordSpaceText(w: string, c: string)
    requires IsWord(w)
    requires TrimStart(c) == c && TrimEnd(c) != []
    ensures Strip(w + [' '] + c) == w + " " + TrimEnd(c)
  {
    var p := w + [' '];
    assert TrimStart(p + c) == p + c by {
      assert (p + c)[0] == w[0];
    }
    TrimEndAfterPrefix(p, c);
  }

  /** A word, one space and a text whose stripped form joins `ws`, stripped,
      join `[w] + ws`. */
  lemma StripWordThen(w: string, ws: seq<string>, c: string)
    requires IsWord(w)
    requires ws == [] ==> c == []
    requires ws != [] ==> TrimStart(c) == c && JoinWords(ws) == TrimEnd(c) != []
    ensures JoinWords([w] + ws) == Strip(w + [' '] + c)
  {
    if ws == [] {
      assert w + [' '] + c == w + [' '];
      StripWordSpace(w);
      assert [w] + ws == [w];
    } else {
      StripWordSpaceText(w, c);
      JoinCons(w, ws);
    }
  }

  /** The split and the collapse of a text that starts with a word, or is
      empty, are both empty or both start with a word. */
  lemma WordsAndCollapseAtStart(t: string)
    requires t == [] || !IsSpace(t[0])
    requires JoinWords(Words(t)) == Strip(CollapseWhitespace(t))
    ensures Words(t) == [] ==> CollapseWhitespace(t) == []
    ensures Words(t) != [] ==>
      (TrimStart(CollapseWhitespace(t)) == CollapseWhitespace(t) &&
       JoinWords(Words(t)) == TrimEnd(CollapseWhitespace(t)) != [])
  {
    if t != [] {
      StripCollapseAtWord(t);
      JoinWordsAtWord(t);
    }
  }

  /** The collapse, stripped, is the text's words joined by single spaces:
      `" ".join(s.split())` equals `re.sub(r'\s+', ' ', s).strip()`. */
  lemma {:induction false} JoinWordsOfCollapse(s: string)
    ensures JoinWords(Words(s)) == Strip(CollapseWhitespace(s))
    decreases |s|
  {
    if s == [] {
    } else if IsSpace(s[0]) {
      JoinCollapseAtSpace(s);
      JoinWordsOfCollapse(TrimStart(s));
    } else {
      var w := TakeWord(s);
      var t := TrimStart(s[|w|..]);
      WordsAtWordStep(s);
      CollapseAtWord(s);
      SplitAtTakeWord(s);
      if s[|w|..] == [] {
        StripUnchanged(w);
      } else {
        JoinWordsOfCollapse(t);
        WordsAndCollapseAtStart(t);
        StripWordThen(w, Words(t), CollapseWhitespace(t));
      }
    }
  }

  // ----- Note complexity -----

  /** `high_complexity_indicators`. */
  const Indicators: seq<string> := [
    "critical", "life threatening", "multiple systems", "extensive",
    "comprehensive", "complex decision making", "high risk"]

  /** The number of indicators of `indicators` that occur in `text`. */
  function CountPresent(indicators: seq<string>, text: string): (n: nat)
    ensures n <= |indicators|
  {
    if indicators == [] then 0
    else (if IsSubstring(indicators[0], text) then 1 else 0) + CountPresent(indicators[1..], text)
  }

  /** `complexity_score`: the indicators found in the lower-cased note. */
  function ComplexityScore(text: string): nat {
    CountPresent(Indicators, Lower(text))
  }

  datatype Complexity = Low | Moderate | High

  /** `estimated_complexity`. */
  function EstimatedComplexity(score: nat): Complexity {
    if score >= 3 then High else if score >= 1 then Moderate else Low
  }

  /** The dictionary `_analyze_note_complexity` returns. */
  datatype NoteAnalysis = NoteAnalysis(wordCount: nat, complexityIndicators: nat, estimatedComplexity: Complexity)

  function AnalyzeNoteComplexity(text: string): NoteAnalysis {
    var score := ComplexityScore(text);
    NoteAnalysis(|Words(text)|, score, EstimatedComplexity(score))
  }

  /** The count is zero exactly when no indicator occurs, and reaches the
      length of the list exactly when all of them occur. */
  lemma {:induction false} CountPresentRange(indicators: seq<string>, text: string)
    ensures CountPresent(indicators, text) == 0 <==> forall k :: k in indicators ==> !IsSubstring(k, text)
    ensures CountPresent(indicators, text) == |indicators| <==> forall k :: k in indicators ==> IsSubstring(k, text)
  {
    if indicators != [] {
      CountPresentRange(indicators[1..], text);
      assert forall k :: k in indicators <==> k == indicators[0] || k in indicators[1..];
    }
  }

  /** An indicator that occurs in a text occurs in any text that embeds it. */
  lemma {:induction false} CountPresentMonotone(indicators: seq<string>, text: string, wider: string)
    requires IsSubstring(text, wider)
    ensures CountPresent(indicators, text) <= CountPresent(indicators, wider)
  {
    if indicators != [] {
      CountPresentMonotone(indicators[1..], text, wider);
      if IsSubstring(indicators[0], text) {
        SubstringTransitive(indicators[0], text, wider);
      }
    }
  }

  lemma LowerSubstring(t: string, u: string)
    requires IsSubstring(t, u)
    ensures IsSubstring(Lower(t), Lower(u))
  {
    var i :| 0 <= i <= |u| - |t| && OccursAt(t, u, i);
    assert Lower(u)[i..i + |t|] == Lower(t) by {
      forall m | 0 <= m < |t| ensures Lower(u)[i..i + |t|][m] == Lower(t)[m] {
        assert u[i + m] == t[m];
      }
    }
    assert OccursAt(Lower(t), Lower(u), i);
  }

  /** The score is between 0 and 7; it is 0 exactly when the lower-cased note
      contains no indicator; and it never drops when the note grows around
      its old text. */
  lemma ComplexityScoreProperties(text: string, wider: string)
    ensures ComplexityScore(text) <= 7
    ensures ComplexityScore(text) == 0 <==> forall k :: k in Indicators ==> !IsSubstring(k, Lower(text))
    ensures IsSubstring(text, wider) ==> ComplexityScore(text) <= ComplexityScore(wider)
  {
    CountPresentRange(Indicators, Lower(text));
    if IsSubstring(text, wider) {
      LowerSubstring(text, wider);
      CountPresentMonotone(Indicators, Lower(text), Lower(wider));
    }
  }

  /** The label is High from three indicators on, Moderate from one, and Low
      for none; it never falls as the score rises. */
  lemma EstimatedComplexityLevels(score: nat, higher: nat)
    ensures EstimatedComplexity(score) == High <==> score >= 3
    ensures EstimatedComplexity(score) == Moderate <==> 1 <= score <= 2
    ensures EstimatedComplexity(score) == Low <==> score == 0
    ensures score <= higher && EstimatedComplexity(score) == High ==> EstimatedComplexity(higher) == High
    ensures score <= higher && EstimatedComplexity(score) != Low ==> EstimatedComplexity(higher) != Low
  {
  }

  /** The analysis counts the words `split` finds and the indicators present. */
  lemma AnalyzeNoteComplexityCounts(ws: seq<string>)
    requires forall w :: w in ws ==> IsWord(w)
    ensures AnalyzeNoteComplexity(JoinWords(ws)).wordCount == |ws|
  {
    WordsOfJoin(ws);
  }

  // ----- Recommendations -----

  const NoCodesMessage: string :=
    "No CPT codes identified. Consider reviewing documentation for missed procedures or evaluations."
  const HighComplexityMessage: string :=
    "Note suggests high complexity but no high-level E&M code identified. Review for appropriate E&M level."
  const NoEvaluationMessage: string :=
    "No evaluation and management code identified. Every ED visit should have an E&M code."
  const LowConfidenceMessage: string :=
    "Some codes have lower confidence scores. Manual review recommended."

  /** The confidence below which a code asks for manual review. */
  const ReviewThreshold: real := 0.6

  /** The two high-level emergency-department visit codes. */
  predicate IsHighLevelVisit(c: CptCode) {
    c.code in ["99284", "99285"]
  }

  predicate BelowReview(c: CptCode) {
    c.confidence < ReviewThreshold
  }

  /** The note looks complex but no high-level visit code was found. */
  predicate HighComplexityUnmatched(codes: seq<CptCode>, analysis: NoteAnalysis) {
    analysis.complexityIndicators >= 2 && !(exists c :: c in codes && IsHighLevelVisit(c))
  }

  /** `_generate_recommendations(codes, analysis)`. */
  function GenerateRecommendations(codes: seq<CptCode>, analysis: NoteAnalysis): seq<string> {
    (if codes == [] then [NoCodesMessage] else [])
    + (if HighComplexityUnmatched(codes, analysis) then [HighComplexityMessage] else [])
    + (if |Filter(codes, IsEvaluation)| == 0 then [NoEvaluationMessage] else [])
    + (if exists c :: c in codes && BelowReview(c) then [LowConfidenceMessage] else [])
  }

  /** Each of the four messages is given exactly when its condition holds;
      there are at most four. */
  lemma RecommendationsExact(codes: seq<CptCode>, analysis: NoteAnalysis)
    ensures NoCodesMessage in GenerateRecommendations(codes, analysis) <==> codes == []
    ensures HighComplexityMessage in GenerateRecommendations(codes, analysis)
      <==> analysis.complexityIndicators >= 2 && forall c :: c in codes ==> !IsHighLevelVisit(c)
    ensures NoEvaluationMessage in GenerateRecommendations(codes, analysis)
      <==> forall c :: c in codes ==> c.category != Evaluation
    ensures LowConfidenceMessage in GenerateRecommendations(codes, analysis)
      <==> exists c :: c in codes && c.confidence < 0.6
    ensures |GenerateRecommendations(codes, analysis)| <= 4
  {
    MessagesDistinct();
    NoEvaluationIff(codes);
  }

  /** The four messages, in the order the source appends them. */
  const Messages: seq<string> := [NoCodesMessage, HighComplexityMessage, NoEvaluationMessage, LowConfidenceMessage]

  /** The position of a message in that order. */
  function MessageRank(m: string): nat {
    if m == NoCodesMessage then 0
    else if m == HighComplexityMessage then 1
    else if m == NoEvaluationMessage then 2
    else 3
  }

  /** Every recommendation is one of the four messages, and they come in the
      fixed order, each at most once. */
  lemma RecommendationsOrdered(codes: seq<CptCode>, analysis: NoteAnalysis)
    ensures forall i :: 0 <= i < |GenerateRecommendations(codes, analysis)| ==>
      GenerateRecommendations(codes, analysis)[i] in Messages
    ensures forall i, j :: 0 <= i < j < |GenerateRecommendations(codes, analysis)| ==>
      MessageRank(GenerateRecommendations(codes, analysis)[i]) < MessageRank(GenerateRecommendations(codes, analysis)[j])
  {
    var a := if codes == [] then [NoCodesMessage] else [];
    var b := if HighComplexityUnmatched(codes, analysis) then [HighComplexityMessage] else [];
    var c := if |Filter(codes, IsEvaluation)| == 0 then [NoEvaluationMessage] else [];
    var d := if exists x :: x in codes && BelowReview(x) then [LowConfidenceMessage] else [];
    assert GenerateRecommendations(codes, analysis) == a + b + c + d;
    BlocksOrdered(a, b, c, d);
  }

  /** Each message is one of the four, and has the rank of its place. */
  lemma MessageRanks()
    ensures MessageRank(NoCodesMessage) == 0 && MessageRank(HighComplexityMessage) == 1
    ensures MessageRank(NoEvaluationMessage) == 2 && MessageRank(LowConfidenceMessage) == 3
  {
    MessagesDistinct();
  }

  /** Messages, each one of the four, in strictly increasing rank, all below
      `k`. */
  ghost predicate RankedBelow(r: seq<string>, k: nat) {
    && (forall i :: 0 <= i < |r| ==> r[i] in Messages && MessageRank(r[i]) < k)
    && (forall i, j :: 0 <= i < j < |r| ==> MessageRank(r[i]) < MessageRank(r[j]))
  }

  /** Appending at most one message of rank `k` keeps the order. */
  lemma RankedAppend(r: seq<string>, y: seq<string>, m: string, k: nat)
    requires RankedBelow(r, k)
    requires m in Messages && MessageRank(m) == k
    requires y == [] || y == [m]
    ensures RankedBelow(r + y, k + 1)
  {
  }

  /** At most one message from each of the four places, in place order, are
      in rank order. */
  lemma BlocksOrdered(a: seq<string>, b: seq<string>, c: seq<string>, d: seq<string>)
    requires a == [] || a == [NoCodesMessage]
    requires b == [] || b == [HighComplexityMessage]
    requires c == [] || c == [NoEvaluationMessage]
    requires d == [] || d == [LowConfidenceMessage]
    ensures RankedBelow(a + b + c + d, 4)
  {
    FirstBlocksOrdered(a, b);
    MessageRanks();
    RankedAppend(a + b, c, NoEvaluationMessage, 2);
    RankedAppend(a + b + c, d, LowConfidenceMessage, 3);
  }

  lemma FirstBlocksOrdered(a: seq<string>, b: seq<string>)
    requires a == [] || a == [NoCodesMessage]
    requires b == [] || b == [HighComplexityMessage]
    ensures RankedBelow(a + b, 2)
  {
    MessageRanks();
    assert [] + a == a;
    RankedAppend([], a, NoCodesMessage, 0);
    RankedAppend(a, b, HighComplexityMessage, 1);
  }

  lemma MessagesDistinct()
    ensures NoCodesMessage != HighComplexityMessage && NoCodesMessage != NoEvaluationMessage
      && NoCodesMessage != LowConfidenceMessage && HighComplexityMessage != NoEvaluationMessage
      && HighComplexityMessage != LowConfidenceMessage && NoEvaluationMessage != LowConfidenceMessage
  {
    assert |NoCodesMessage| == 95 && |HighComplexityMessage| == 102
      && |NoEvaluationMessage| == 85 && |LowConfidenceMessage| == 67;
  }

  lemma NoEvaluationIff(codes: seq<CptCode>)
    ensures |Filter(codes, IsEvaluation)| == 0 <==> forall c :: c in codes ==> c.category != Evaluation
  {
    if |Filter(codes, IsEvaluation)| > 0 {
      assert Filter(codes, IsEvaluation)[0] in Filter(codes, IsEvaluation);
    }
  }

  /** With no codes the list is the no-codes message, the high-complexity
      message when two or more indicators were found, and the no-E&M
      message. */
  lemma RecommendationsWithoutCodes(analysis: NoteAnalysis)
    ensures GenerateRecommendations([], analysis)
      == [NoCodesMessage] + (if analysis.complexityIndicators >= 2 then [HighComplexityMessage] else [])
         + [NoEvaluationMessage]
  {
  }

  // ----- The detailed report -----

  /** `round(x, 3)` on an exact rational: to the nearest multiple of 0.001,
      halves to the even multiple. */
  function Round3(x: real): (r: real)
    ensures -0.0005 <= r - x <= 0.0005
    ensures (r * 1000.0).Floor as real == r * 1000.0
  {
    var scaled := x * 1000.0;
    var n := scaled.Floor;
    var frac := scaled - n as real;
    var m := if frac > 0.5 || (frac == 0.5 && n % 2 == 1) then n + 1 else n;
    assert (m as real / 1000.0) * 1000.0 == m as real;
    m as real / 1000.0
  }

  /** One entry of the report's 'cpt_codes' list. */
  function Reported(c: CptCode): CptCode {
    c.(confidence := Round3(c.confidence))
  }

  /** The report's 'cpt_codes' list: one entry per code, in order. */
  function ReportedCodes(codes: seq<CptCode>): (r: seq<CptCode>)
    ensures |r| == |codes|
    ensures forall i :: 0 <= i < |codes| ==> r[i] == Reported(codes[i])
  {
    seq(|codes|, i requires 0 <= i < |codes| => Reported(codes[i]))
  }

  /** `max([code.confidence for code in codes]) if codes else 0`. */
  function HighestConfidence(codes: seq<CptCode>): (h: real)
    ensures codes == [] ==> h == 0.0
    ensures codes != [] ==> (exists c :: c in codes && c.confidence == h)
    ensures forall c :: c in codes ==> c.confidence <= h
  {
    if codes == [] then 0.0 else FirstMax(codes).confidence
  }

  /** The dictionary `extract_with_details` returns. */
  datatype Details = Details(
    cptCodes: seq<CptCode>,
    noteAnalysis: NoteAnalysis,
    totalCodesFound: nat,
    highestConfidence: real,
    recommendations: seq<string>)

  /** The report for the extracted `codes` of the raw note `note`. */
  function DetailsOf(codes: seq<CptCode>, note: string): Details {
    var analysis := AnalyzeNoteComplexity(note);
    Details(
      ReportedCodes(codes),
      analysis,
      |codes|,
      HighestConfidence(codes),
      GenerateRecommendations(codes, analysis))
  }

  /** The report lists the codes in order, each with its code, description
      and category, and its confidence rounded to within 0.0005; the count is
      the number of codes. */
  lemma DetailsOfCodes(codes: seq<CptCode>, note: string)
    ensures |DetailsOf(codes, note).cptCodes| == |codes| == DetailsOf(codes, note).totalCodesFound
    ensures forall i :: 0 <= i < |codes| ==> ReportedFaithfully(DetailsOf(codes, note).cptCodes[i], codes[i])
  {
    var d := DetailsOf(codes, note);
    forall i | 0 <= i < |codes| ensures ReportedFaithfully(d.cptCodes[i], codes[i]) {
      assert d.cptCodes[i] == Reported(codes[i]);
    }
  }

  /** `r` reports `c`: same code, description and category, and a confidence
      within 0.0005 of it. */
  predicate ReportedFaithfully(r: CptCode, c: CptCode) {
    r.code == c.code && r.description == c.description && r.category == c.category
    && -0.0005 <= r.confidence - c.confidence <= 0.0005
  }
}
