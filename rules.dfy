/**
 * The business-rule refiner `_apply_business_rules`, as functions of the
 * candidate list:
 *   Rule 1: of the Evaluation-and-Management candidates keep the first one of
 *           highest confidence (what `max` returns);
 *   Rule 2: of the other candidates keep those with confidence above 0.5;
 *   Rule 3: group the survivors by `GroupKey` and keep, per key, the entry a
 *           left-to-right scan ends with: a later entry replaces an earlier one
 *           only when its confidence is strictly higher;
 * and finally sort the kept entries by confidence, highest first.
 */
module Rules {
  import opened Model
  import opened Ranking

  const ProcedureThreshold: real := 0.5

  predicate IsEvaluation(c: CptCode) {
    c.category == Evaluation
  }

  predicate IsProcedure(c: CptCode) {
    c.category != Evaluation
  }

  predicate AboveProcedureThreshold(c: CptCode) {
    c.confidence > ProcedureThreshold
  }

  /** `max(xs, key=lambda x: x.confidence)`: an entry of highest confidence,
      the first such (`FirstMaxIsFirst`). */
  function FirstMax(xs: seq<CptCode>): (m: CptCode)
    requires |xs| > 0
    ensures m in xs
    ensures forall x :: x in xs ==> x.confidence <= m.confidence
  {
    if |xs| == 1 then xs[0]
    else
      var init := xs[..|xs| - 1];
      assert xs == init + [xs[|xs| - 1]];
      var m := FirstMax(init);
      if xs[|xs| - 1].confidence > m.confidence then xs[|xs| - 1] else m
  }

  /** `max` keeps the first of several entries of highest confidence: the
      entry it returns occurs no later than any entry of equal confidence. */
  lemma {:induction false} FirstMaxIsFirst(xs: seq<CptCode>, j: nat)
    requires j < |xs| && xs[j].confidence == FirstMax(xs).confidence
    ensures FirstMax(xs) in xs[..j + 1]
  {
    if |xs| > 1 {
      var n := |xs| - 1;
      var init := xs[..n];
      var m := FirstMax(init);
      if xs[n].confidence > m.confidence {
        assert FirstMax(xs) == xs[n];
        assert xs[..j + 1] == xs;
      } else {
        assert FirstMax(xs) == m;
        if j < n {
          assert init[j] == xs[j];
          FirstMaxIsFirst(init, j);
          assert xs[..j + 1] == init[..j + 1];
        } else {
          assert m in init;
          assert xs[..j + 1] == xs;
        }
      }
    }
  }

  /** `refined_codes` after Rules 1 and 2. */
  function Refined(codes: seq<CptCode>): seq<CptCode> {
    var em := Filter(codes, IsEvaluation);
    (if |em| > 0 then [FirstMax(em)] else []) + Filter(Filter(codes, IsProcedure), AboveProcedureThreshold)
  }

  /** The dictionary `seen_categories`: its keys in insertion order, and the
      entry stored under each. Overwriting a key keeps its position. */
  datatype Seen = Seen(order: seq<string>, best: map<string, CptCode>)

  ghost predicate NoDuplicates(ks: seq<string>) {
    forall i, j :: 0 <= i < j < |ks| ==> ks[i] != ks[j]
  }

  /** A dictionary as the scan builds it: each key listed once, exactly the
      stored keys listed, each entry stored under its own key. */
  ghost predicate WellFormed(s: Seen, key: CptCode -> string) {
    && NoDuplicates(s.order)
    && (forall k :: k in s.best <==> k in s.order)
    && (forall k :: k in s.best ==> key(s.best[k]) == k)
  }

  /** One iteration of the Rule 3 loop, for a grouping key `key` (the source's
      is `GroupKey`; the scan's properties hold for any key). */
  function Record(s: Seen, c: CptCode, key: CptCode -> string): Seen {
    var k := key(c);
    if k !in s.best then Seen(s.order + [k], s.best[k := c])
    else if c.confidence > s.best[k].confidence then Seen(s.order, s.best[k := c])
    else s
  }

  /** The dictionary after the Rule 3 loop has seen `xs`. */
  function Scan(xs: seq<CptCode>, key: CptCode -> string): (s: Seen)
    ensures WellFormed(s, key)
  {
    if xs == [] then Seen([], map[])
    else Record(Scan(xs[..|xs| - 1], key), xs[|xs| - 1], key)
  }

  /** `list(seen_categories.values())`. */
  function Values(s: Seen, key: CptCode -> string): (r: seq<CptCode>)
    requires WellFormed(s, key)
    ensures |r| == |s.order|
  {
    seq(|s.order|, i requires 0 <= i < |s.order| => s.best[s.order[i]])
  }

  /** Rule 3 before the final sort. */
  function Deduplicate(xs: seq<CptCode>, key: CptCode -> string): seq<CptCode> {
    Values(Scan(xs, key), key)
  }

  /** `_apply_business_rules(codes, text)`. */
  function BusinessRules(codes: seq<CptCode>): seq<CptCode> {
    SortDesc(Deduplicate(Refined(codes), GroupKey))
  }

  /** No two entries share a grouping key. */
  ghost predicate KeysDistinct(r: seq<CptCode>, key: CptCode -> string) {
    forall i, j :: 0 <= i < j < |r| ==> key(r[i]) != key(r[j])
  }

  // ----- Rules 1 and 2 -----

  /** What survives Rules 1 and 2: the first highest-confidence E&M candidate,
      if there is one, and every other candidate above 0.5. */
  lemma RefinedMembers(codes: seq<CptCode>, x: CptCode)
    ensures x in Refined(codes) <==>
      (|Filter(codes, IsEvaluation)| > 0 && x == FirstMax(Filter(codes, IsEvaluation)))
      || (x in codes && IsProcedure(x) && x.confidence > 0.5)
  {
  }

  lemma RefinedSingleEvaluation(codes: seq<CptCode>)
    ensures forall x :: x in Refined(codes) && IsEvaluation(x) ==> x == FirstMax(Filter(codes, IsEvaluation))
  {
  }

  // ----- The Rule 3 scan -----

  /** Every entry stored in `s` is one of `xs`. */
  ghost predicate StoredFromInput(xs: seq<CptCode>, s: Seen) {
    forall k :: k in s.best ==> s.best[k] in xs
  }

  /** Every entry of `xs` has its key stored in `s`, with an entry at least as
      confident. */
  ghost predicate Covers(xs: seq<CptCode>, s: Seen, key: CptCode -> string) {
    forall x :: x in xs ==> key(x) in s.best && x.confidence <= s.best[key(x)].confidence
  }

  /** The tie rule: the entry stored in `s` for a key occurs in `xs` no later
      than any entry of that key whose confidence reaches it. */
  ghost predicate EarliestStored(xs: seq<CptCode>, s: Seen, key: CptCode -> string) {
    forall j :: (0 <= j < |xs| && key(xs[j]) in s.best
                 && xs[j].confidence >= s.best[key(xs[j])].confidence)
                 ==> s.best[key(xs[j])] in xs[..j + 1]
  }

  lemma RecordFromInput(init: seq<CptCode>, c: CptCode, s: Seen, key: CptCode -> string)
    requires StoredFromInput(init, s)
    ensures StoredFromInput(init + [c], Record(s, c, key))
  {
    forall x | x in init ensures x in init + [c] { }
  }

  lemma RecordCovers(init: seq<CptCode>, c: CptCode, s: Seen, key: CptCode -> string)
    requires Covers(init, s, key)
    ensures Covers(init + [c], Record(s, c, key), key)
  {
    var t := Record(s, c, key);
    forall x | x in init + [c]
      ensures key(x) in t.best && x.confidence <= t.best[key(x)].confidence
    {
      if x != c {
        assert x in init;
      }
    }
  }

  /** One step of the scan keeps the tie rule. */
  lemma RecordEarliestStored(init: seq<CptCode>, c: CptCode, s: Seen, key: CptCode -> string)
    requires EarliestStored(init, s, key) && Covers(init, s, key) && StoredFromInput(init, s)
    ensures EarliestStored(init + [c], Record(s, c, key), key)
  {
    var xs := init + [c];
    var n := |init|;
    var t := Record(s, c, key);
    forall j | 0 <= j < |xs| && key(xs[j]) in t.best && xs[j].confidence >= t.best[key(xs[j])].confidence
      ensures t.best[key(xs[j])] in xs[..j + 1]
    {
      if j == n {
        LastStoredEarliest(init, c, s, key);
      } else {
        EarlierStoredEarliest(init, c, s, key, j);
      }
    }
  }

  lemma LastStoredEarliest(init: seq<CptCode>, c: CptCode, s: Seen, key: CptCode -> string)
    requires StoredFromInput(init, s)
    ensures key(c) in Record(s, c, key).best
    ensures Record(s, c, key).best[key(c)] in (init + [c])[..|init| + 1]
  {
    var xs := init + [c];
    assert xs[..|init| + 1] == xs;
    var t := Record(s, c, key);
    if t.best[key(c)] != c {
      assert t.best[key(c)] == s.best[key(c)];
    }
  }

  lemma EarlierStoredEarliest(init: seq<CptCode>, c: CptCode, s: Seen, key: CptCode -> string, j: nat)
    requires EarliestStored(init, s, key) && Covers(init, s, key)
    requires j < |init|
    requires key(init[j]) in Record(s, c, key).best
    requires init[j].confidence >= Record(s, c, key).best[key(init[j])].confidence
    ensures Record(s, c, key).best[key(init[j])] in (init + [c])[..j + 1]
  {
    var k := key(init[j]);
    var t := Record(s, c, key);
    assert init[j] in init;
    assert (init + [c])[..j + 1] == init[..j + 1];
    assert t.best[k] == s.best[k];
  }

  lemma {:induction false} ScanFromInput(xs: seq<CptCode>, key: CptCode -> string)
    ensures StoredFromInput(xs, Scan(xs, key))
  {
    if xs != [] {
      var n := |xs| - 1;
      ScanFromInput(xs[..n], key);
      RecordFromInput(xs[..n], xs[n], Scan(xs[..n], key), key);
      assert xs == xs[..n] + [xs[n]];
    }
  }

  lemma {:induction false} ScanCovers(xs: seq<CptCode>, key: CptCode -> string)
    ensures Covers(xs, Scan(xs, key), key)
  {
    if xs != [] {
      var n := |xs| - 1;
      ScanCovers(xs[..n], key);
      RecordCovers(xs[..n], xs[n], Scan(xs[..n], key), key);
      assert xs == xs[..n] + [xs[n]];
    }
  }

  /** On ties the earliest entry wins. */
  lemma {:induction false} ScanFirstBest(xs: seq<CptCode>, key: CptCode -> string)
    ensures EarliestStored(xs, Scan(xs, key), key)
  {
    if xs != [] {
      var n := |xs| - 1;
      var init := xs[..n];
      ScanFirstBest(init, key);
      ScanCovers(init, key);
      ScanFromInput(init, key);
      RecordEarliestStored(init, xs[n], Scan(init, key), key);
      assert xs == init + [xs[n]];
    }
  }

  /** Some entry of `xs` before position `m` has key `k`. */
  ghost predicate OccursBefore(xs: seq<CptCode>, key: CptCode -> string, k: string, m: int) {
    exists p :: 0 <= p < m && p < |xs| && key(xs[p]) == k
  }

  /** The keys of `s` are listed in the order in which they first occur in
      `xs`: a key listed later never occurs in `xs` before an earlier one. */
  ghost predicate FirstSeenOrder(xs: seq<CptCode>, s: Seen, key: CptCode -> string) {
    forall i, j, m :: 0 <= i < j < |s.order| && 0 <= m < |xs| && key(xs[m]) == s.order[j]
      ==> OccursBefore(xs, key, s.order[i], m)
  }

  /** An occurrence before `m` in `init` is one in `init + [c]` too. */
  lemma OccursBeforeExtended(init: seq<CptCode>, c: CptCode, key: CptCode -> string, k: string, m: int)
    requires OccursBefore(init, key, k, m)
    ensures OccursBefore(init + [c], key, k, m)
  {
    var p :| 0 <= p < m && p < |init| && key(init[p]) == k;
    assert (init + [c])[p] == init[p];
  }

  /** A key already stored occurs in `init`, so before the entry appended
      after it. */
  lemma StoredOccursBefore(init: seq<CptCode>, c: CptCode, s: Seen, key: CptCode -> string, k: string)
    requires WellFormed(s, key) && StoredFromInput(init, s)
    requires k in s.best
    ensures OccursBefore(init + [c], key, k, |init|)
  {
    var x := s.best[k];
    var p :| 0 <= p < |init| && init[p] == x;
    assert (init + [c])[p] == init[p];
  }

  lemma RecordFirstSeen(init: seq<CptCode>, c: CptCode, s: Seen, key: CptCode -> string)
    requires WellFormed(s, key) && FirstSeenOrder(init, s, key)
    requires StoredFromInput(init, s) && Covers(init, s, key)
    ensures FirstSeenOrder(init + [c], Record(s, c, key), key)
  {
    var xs := init + [c];
    var n := |init|;
    var t := Record(s, c, key);
    forall i, j, m | 0 <= i < j < |t.order| && 0 <= m < |xs| && key(xs[m]) == t.order[j]
      ensures OccursBefore(xs, key, t.order[i], m)
    {
      assert i < |s.order| && t.order[i] == s.order[i];
      if m < n {
        assert xs[m] == init[m] && init[m] in init;
        assert j < |s.order| && t.order[j] == s.order[j];
        OccursBeforeExtended(init, c, key, s.order[i], m);
      } else {
        StoredOccursBefore(init, c, s, key, s.order[i]);
      }
    }
  }

  /** The dictionary lists exactly the keys of the scanned list. */
  lemma ScanListsKeys(xs: seq<CptCode>, key: CptCode -> string)
    ensures forall k :: k in Scan(xs, key).order <==> exists x :: x in xs && key(x) == k
  {
    var s := Scan(xs, key);
    ScanCovers(xs, key);
    ScanFromInput(xs, key);
    forall k | k in s.order
      ensures exists x :: x in xs && key(x) == k
    {
      assert s.best[k] in xs;
    }
  }

  /** The dictionary lists its keys in the order of their first occurrence. */
  lemma {:induction false} ScanFirstSeen(xs: seq<CptCode>, key: CptCode -> string)
    ensures FirstSeenOrder(xs, Scan(xs, key), key)
  {
    if xs != [] {
      var n := |xs| - 1;
      var init := xs[..n];
      var s0 := Scan(init, key);
      assert Scan(xs, key) == Record(s0, xs[n], key);
      ScanFirstSeen(init, key);
      ScanCovers(init, key);
      ScanFromInput(init, key);
      RecordFirstSeen(init, xs[n], s0, key);
      assert init + [xs[n]] == xs;
    }
  }

  /** The dictionary lists exactly the keys of the scanned list, each once,
      in the order of their first occurrence. */
  lemma ScanOrder(xs: seq<CptCode>, key: CptCode -> string)
    ensures NoDuplicates(Scan(xs, key).order)
    ensures forall k :: k in Scan(xs, key).order <==> exists x :: x in xs && key(x) == k
    ensures FirstSeenOrder(xs, Scan(xs, key), key)
  {
    ScanListsKeys(xs, key);
    ScanFirstSeen(xs, key);
  }

  // ----- Rule 3 as a whole -----

  lemma DeduplicateKeysDistinct(xs: seq<CptCode>, key: CptCode -> string)
    ensures KeysDistinct(Deduplicate(xs, key), key)
  {
  }

  lemma DeduplicateFromInput(xs: seq<CptCode>, key: CptCode -> string)
    ensures forall y :: y in Deduplicate(xs, key) ==> y in xs
  {
    ScanFromInput(xs, key);
    var s := Scan(xs, key);
    forall y | y in Deduplicate(xs, key) ensures y in xs {
      var i :| 0 <= i < |s.order| && Deduplicate(xs, key)[i] == y;
      assert s.order[i] in s.best;
    }
  }

  lemma DeduplicateCovers(xs: seq<CptCode>, key: CptCode -> string)
    ensures forall x :: x in xs ==>
      (exists i :: 0 <= i < |Deduplicate(xs, key)| && key(Deduplicate(xs, key)[i]) == key(x)
                   && Deduplicate(xs, key)[i].confidence >= x.confidence)
  {
    ScanCovers(xs, key);
    var s := Scan(xs, key);
    var d := Deduplicate(xs, key);
    forall x | x in xs
      ensures exists i :: 0 <= i < |d| && key(d[i]) == key(x) && d[i].confidence >= x.confidence
    {
      var k := key(x);
      var i :| 0 <= i < |s.order| && s.order[i] == k;
      assert d[i] == s.best[k];
    }
  }

  lemma DeduplicateFirstBest(xs: seq<CptCode>, key: CptCode -> string)
    ensures forall y, j :: (y in Deduplicate(xs, key) && 0 <= j < |xs| && key(xs[j]) == key(y)
                            && xs[j].confidence >= y.confidence) ==> y in xs[..j + 1]
  {
    ScanFirstBest(xs, key);
    var s := Scan(xs, key);
    forall y, j | y in Deduplicate(xs, key) && 0 <= j < |xs| && key(xs[j]) == key(y) && xs[j].confidence >= y.confidence
      ensures y in xs[..j + 1]
    {
      var i :| 0 <= i < |s.order| && Deduplicate(xs, key)[i] == y;
      assert s.best[s.order[i]] == y && s.order[i] == key(y);
    }
  }

  // ----- The final sort keeps the keys apart -----

  /** Putting in front an entry whose key no other entry has keeps the keys
      apart. */
  lemma ConsKeysDistinct(h: CptCode, rest: seq<CptCode>, key: CptCode -> string)
    requires KeysDistinct(rest, key)
    requires forall k :: 0 <= k < |rest| ==> key(rest[k]) != key(h)
    ensures KeysDistinct([h] + rest, key)
  {
    var r := [h] + rest;
    forall i, j | 0 <= i < j < |r|
      ensures key(r[i]) != key(r[j])
    {
      assert r[j] == rest[j - 1];
      if i > 0 {
        assert r[i] == rest[i - 1];
      }
    }
  }

  /** Inserting draws no key from outside the list and the new entry. */
  lemma InsertAvoidsKey(x: CptCode, ys: seq<CptCode>, key: CptCode -> string, avoided: string)
    requires key(x) != avoided
    requires forall y :: y in ys ==> key(y) != avoided
    ensures forall k :: 0 <= k < |Insert(x, ys)| ==> key(Insert(x, ys)[k]) != avoided
  {
    var r := Insert(x, ys);
    forall k | 0 <= k < |r|
      ensures key(r[k]) != avoided
    {
      assert r[k] in multiset(r);
      if r[k] != x {
        assert r[k] in multiset(ys);
      }
    }
  }

  lemma {:induction false} InsertKeysDistinct(x: CptCode, ys: seq<CptCode>, key: CptCode -> string)
    requires KeysDistinct(ys, key)
    requires forall y :: y in ys ==> key(y) != key(x)
    ensures KeysDistinct(Insert(x, ys), key)
  {
    if ys == [] || ys[0].confidence <= x.confidence {
      assert forall k :: 0 <= k < |ys| ==> ys[k] in ys;
      ConsKeysDistinct(x, ys, key);
    } else {
      var tail := ys[1..];
      assert KeysDistinct(tail, key) by {
        forall i, j | 0 <= i < j < |tail| ensures key(tail[i]) != key(tail[j]) {
          assert tail[i] == ys[i + 1] && tail[j] == ys[j + 1];
        }
      }
      assert forall y :: y in tail ==> y in ys;
      InsertKeysDistinct(x, tail, key);
      assert forall y :: y in tail ==> key(y) != key(ys[0]) by {
        forall y | y in tail ensures key(y) != key(ys[0]) {
          var m :| 0 <= m < |tail| && tail[m] == y;
          assert ys[m + 1] == y;
        }
      }
      assert ys[0] in ys;
      InsertAvoidsKey(x, tail, key, key(ys[0]));
      ConsKeysDistinct(ys[0], Insert(x, tail), key);
    }
  }

  lemma {:induction false} SortKeysDistinct(xs: seq<CptCode>, key: CptCode -> string)
    requires KeysDistinct(xs, key)
    ensures KeysDistinct(SortDesc(xs), key)
  {
    if xs != [] {
      var tail := xs[1..];
      assert KeysDistinct(tail, key) by {
        forall i, j | 0 <= i < j < |tail| ensures key(tail[i]) != key(tail[j]) {
          assert tail[i] == xs[i + 1] && tail[j] == xs[j + 1];
        }
      }
      SortKeysDistinct(tail, key);
      SortDescMembers(tail);
      forall y | y in SortDesc(tail) ensures key(y) != key(xs[0]) {
        var m :| 0 <= m < |tail| && tail[m] == y;
        assert xs[m + 1] == y;
      }
      InsertKeysDistinct(xs[0], SortDesc(tail), key);
    }
  }

  // ----- The refiner's guarantees -----

  /** Two candidates fall in the same Rule 3 group: same category and same
      first three characters of the code (`GroupKeyInjective`). */
  predicate SameGroup(x: CptCode, y: CptCode) {
    x.category == y.category && Prefix3(x.code) == Prefix3(y.code)
  }

  /** Nothing is invented: every result entry is an input candidate. */
  lemma BusinessRulesFromInput(codes: seq<CptCode>)
    ensures forall y :: y in BusinessRules(codes) ==> y in codes
  {
    var ref := Refined(codes);
    DeduplicateFromInput(ref, GroupKey);
    SortDescMembers(Deduplicate(ref, GroupKey));
    forall y | y in BusinessRules(codes) ensures y in codes {
      RefinedMembers(codes, y);
    }
  }

  /** No two result entries fall in the same group. */
  lemma BusinessRulesGroupsDistinct(codes: seq<CptCode>)
    ensures forall i, j :: 0 <= i < j < |BusinessRules(codes)| ==>
      !SameGroup(BusinessRules(codes)[i], BusinessRules(codes)[j])
  {
    var r := BusinessRules(codes);
    DeduplicateKeysDistinct(Refined(codes), GroupKey);
    SortKeysDistinct(Deduplicate(Refined(codes), GroupKey), GroupKey);
    forall i, j | 0 <= i < j < |r|
      ensures !SameGroup(r[i], r[j])
    {
      GroupKeyInjective(r[i], r[j]);
    }
  }

  /** Every non-E&M result entry has confidence above 0.5. */
  lemma BusinessRulesProcedureFloor(codes: seq<CptCode>)
    ensures forall y :: y in BusinessRules(codes) && !IsEvaluation(y) ==> y.confidence > 0.5
  {
    var ref := Refined(codes);
    DeduplicateFromInput(ref, GroupKey);
    SortDescMembers(Deduplicate(ref, GroupKey));
    forall y | y in BusinessRules(codes) && !IsEvaluation(y) ensures y.confidence > 0.5 {
      RefinedMembers(codes, y);
    }
  }

  /** Rule 3 followed by the sort keeps, for each scanned entry, an entry of
      its key with at least its confidence. */
  lemma SortedDeduplicateCovers(xs: seq<CptCode>, key: CptCode -> string)
    ensures forall x :: x in xs ==>
      (exists y :: y in SortDesc(Deduplicate(xs, key)) && key(y) == key(x) && y.confidence >= x.confidence)
  {
    var d := Deduplicate(xs, key);
    DeduplicateCovers(xs, key);
    SortDescMembers(d);
    forall x | x in xs
      ensures exists y :: y in SortDesc(d) && key(y) == key(x) && y.confidence >= x.confidence
    {
      var i :| 0 <= i < |d| && key(d[i]) == key(x) && d[i].confidence >= x.confidence;
      assert d[i] in d;
    }
  }

  /** Every candidate that passed Rule 1 or 2 is represented in the result by
      an entry of its group with at least its confidence. */
  lemma BusinessRulesCover(codes: seq<CptCode>)
    ensures forall x :: x in Refined(codes) ==>
      (exists y :: y in BusinessRules(codes) && SameGroup(y, x) && y.confidence >= x.confidence)
  {
    var ref := Refined(codes);
    SortedDeduplicateCovers(ref, GroupKey);
    forall x | x in ref
      ensures exists y :: y in BusinessRules(codes) && SameGroup(y, x) && y.confidence >= x.confidence
    {
      var y :| y in SortDesc(Deduplicate(ref, GroupKey)) && GroupKey(y) == GroupKey(x) && y.confidence >= x.confidence;
      GroupKeyInjective(y, x);
    }
  }

  /** Every E&M entry of the result is the first of highest confidence among
      the input E&M candidates. */
  lemma BusinessRulesEvaluationIsTop(codes: seq<CptCode>)
    ensures forall y :: y in BusinessRules(codes) && IsEvaluation(y) ==>
      |Filter(codes, IsEvaluation)| > 0 && y == FirstMax(Filter(codes, IsEvaluation))
  {
    BusinessRulesFromRefined(codes);
    forall y | y in BusinessRules(codes) && IsEvaluation(y)
      ensures |Filter(codes, IsEvaluation)| > 0 && y == FirstMax(Filter(codes, IsEvaluation))
    {
      assert y in Refined(codes);
      RefinedMembers(codes, y);
    }
  }

  lemma BusinessRulesFromRefined(codes: seq<CptCode>)
    ensures forall y :: y in BusinessRules(codes) ==> y in Refined(codes)
  {
    var ref := Refined(codes);
    DeduplicateFromInput(ref, GroupKey);
    SortDescMembers(Deduplicate(ref, GroupKey));
  }

  /** At most one result entry is an E&M code. */
  lemma BusinessRulesSingleEvaluation(codes: seq<CptCode>)
    ensures forall i, j :: 0 <= i < j < |BusinessRules(codes)| ==>
      !(IsEvaluation(BusinessRules(codes)[i]) && IsEvaluation(BusinessRules(codes)[j]))
  {
    var r := BusinessRules(codes);
    BusinessRulesEvaluationIsTop(codes);
    BusinessRulesGroupsDistinct(codes);
    forall i, j | 0 <= i < j < |r|
      ensures !(IsEvaluation(r[i]) && IsEvaluation(r[j]))
    {
      assert r[i] in r && r[j] in r;
      assert !SameGroup(r[i], r[j]);
    }
  }

  /** When there is an E&M candidate, the first of highest confidence among
      them is kept. */
  lemma BusinessRulesKeepsEvaluation(codes: seq<CptCode>)
    requires |Filter(codes, IsEvaluation)| > 0
    ensures FirstMax(Filter(codes, IsEvaluation)) in BusinessRules(codes)
  {
    var top := FirstMax(Filter(codes, IsEvaluation));
    assert top in Refined(codes);
    BusinessRulesCover(codes);
    BusinessRulesEvaluationIsTop(codes);
    var y :| y in BusinessRules(codes) && SameGroup(y, top) && y.confidence >= top.confidence;
  }

  /** Ties go to the earliest: a result entry occurs in the Rule 1-2 list no
      later than any entry of its group whose confidence reaches its own. With
      the lemma before, each result entry is the first entry of highest
      confidence in its group. */
  lemma BusinessRulesEarliestOnTies(codes: seq<CptCode>)
    ensures forall y, j :: (y in BusinessRules(codes) && 0 <= j < |Refined(codes)|
                            && SameGroup(Refined(codes)[j], y)
                            && Refined(codes)[j].confidence >= y.confidence)
                            ==> y in Refined(codes)[..j + 1]
  {
    var ref := Refined(codes);
    DeduplicateFirstBest(ref, GroupKey);
    SortDescMembers(Deduplicate(ref, GroupKey));
    forall y, j | y in BusinessRules(codes) && 0 <= j < |ref| && SameGroup(ref[j], y) && ref[j].confidence >= y.confidence
      ensures y in ref[..j + 1]
    {
      GroupKeyInjective(ref[j], y);
    }
  }

  /** The result is sorted by non-increasing confidence, and entries of equal
      confidence keep the order in which Rule 3 first met their groups. */
  lemma BusinessRulesOrder(codes: seq<CptCode>, v: real)
    ensures SortedDesc(BusinessRules(codes))
    ensures Tied(BusinessRules(codes), v) == Tied(Deduplicate(Refined(codes), GroupKey), v)
  {
    SortDescStable(Deduplicate(Refined(codes), GroupKey), v);
  }
}
