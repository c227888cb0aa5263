/**
 * The data the extractor works on: the `ProcedureCategory` enumeration, the
 * `CPTCode` record, the definitions held in the code table, and the grouping
 * key of the deduplication rule.
 */
module Model {

  /** `ProcedureCategory`. */
  datatype Category = Evaluation | Procedures | Radiology | Laboratory | Injections | WoundCare

  /** The enumeration's `.value` strings. */
  function CategoryValue(c: Category): string {
    match c
    case Evaluation => "Evaluation and Management"
    case Procedures => "Procedures"
    case Radiology => "Radiology"
    case Laboratory => "Laboratory"
    case Injections => "Injections"
    case WoundCare => "Wound Care"
  }

  /** The `CPTCode` record: one candidate match. The source stores the
      category's `.value` string; since the six values are distinct, the
      enumeration member carries the same information. */
  datatype CptCode = CptCode(code: string, description: string, category: Category, confidence: real)

  /** The regular-expression library: `engine(p, t)` holds when the pattern
      with source text `p`, compiled, finds a match anywhere in `t`. */
  type RegexEngine = (string, string) -> bool

  /** What `re.compile` returns, identified by its source text. */
  datatype CompiledPattern = CompiledPattern(source: string)

  /** One code definition of the table. `compiled` is the entry the source adds
      under the key 'compiled_patterns'; before compilation it is empty, which
      reads the same as the missing key. */
  datatype CodeInfo = CodeInfo(
    description: string,
    category: Category,
    keywords: seq<string>,
    patterns: seq<string>,
    compiled: seq<CompiledPattern>)

  /** A table entry: a code identifier and its definition. The table is a
      sequence of entries, which keeps a dictionary's insertion order. */
  type Entry = (string, CodeInfo)

  /** `s[:3]`. */
  function Prefix3(s: string): (r: string)
    ensures |r| <= 3 && |r| <= |s| && r == s[..|r|]
    ensures |r| == if |s| < 3 then |s| else 3
  {
    if |s| <= 3 then s else s[..3]
  }

  /** The deduplication key `f"{code.category}_{code.code[:3]}"`. */
  function GroupKey(c: CptCode): string {
    CategoryValue(c.category) + "_" + Prefix3(c.code)
  }

  /** The position of the first '_' in `s` (its length when there is none). */
  function SeparatorIndex(s: string): nat {
    if s == [] || s[0] == '_' then 0 else 1 + SeparatorIndex(s[1..])
  }

  lemma {:induction false} SeparatorIndexAfter(a: string, p: string)
    requires '_' !in a
    ensures SeparatorIndex(a + "_" + p) == |a|
  {
    if a != [] {
      assert (a + "_" + p)[1..] == a[1..] + "_" + p;
      SeparatorIndexAfter(a[1..], p);
    }
  }

  lemma SplitAtSeparator(a: string, b: string, p: string, q: string)
    requires '_' !in a && '_' !in b
    requires a + "_" + p == b + "_" + q
    ensures a == b && p == q
  {
    var u := a + "_" + p;
    SeparatorIndexAfter(a, p);
    SeparatorIndexAfter(b, q);
    assert a == u[..|a|] == b;
    assert p == u[|a| + 1..] == q;
  }

  /** The string key identifies the pair (category, first three characters of
      the code): no category value contains the separator '_'. */
  lemma GroupKeyInjective(x: CptCode, y: CptCode)
    ensures GroupKey(x) == GroupKey(y) <==> x.category == y.category && Prefix3(x.code) == Prefix3(y.code)
  {
    if GroupKey(x) == GroupKey(y) {
      assert '_' !in CategoryValue(x.category) && '_' !in CategoryValue(y.category) by {
        match x.category
        case Evaluation => { } case Procedures => { } case Radiology => { }
        case Laboratory => { } case Injections => { } case WoundCare => { }
      }
      SplitAtSeparator(CategoryValue(x.category), CategoryValue(y.category), Prefix3(x.code), Prefix3(y.code));
      assert CategoryValue(x.category) == CategoryValue(y.category);
    }
  }

  /** A list comprehension `[x for x in xs if p(x)]`. */
  function Filter(xs: seq<CptCode>, p: CptCode -> bool): (r: seq<CptCode>)
    ensures |r| <= |xs|
    ensures forall x :: x in r <==> x in xs && p(x)
  {
    if xs == [] then []
    else (if p(xs[0]) then [xs[0]] else []) + Filter(xs[1..], p)
  }
}
