/**
 * The text normaliser `_clean_text`: lower-case the note, turn every run of
 * whitespace into one space, replace every character outside the allow-set by
 * a space, and strip both ends.
 *
 * The replacement runs after the collapse, so the result may hold two or more
 * spaces in a row, and a second application can change it again
 * (`CleanTextNotIdempotent`).
 */
module Normalizer {
  import opened Text

  /** The punctuation the allow-set names besides `\w` and `\s`. */
  predicate IsKeptPunctuation(c: char) {
    c in "-.,:;()/"
  }

  /** Characters the pattern `[^\w\s\-\.\,\:\;\(\)\/]` does not match. */
  predicate IsAllowed(c: char) {
    IsWordChar(c) || IsSpace(c) || IsKeptPunctuation(c)
  }

  /** Every character of `s` is whitespace. */
  predicate AllSpace(s: string) {
    forall i :: 0 <= i < |s| ==> IsSpace(s[i])
  }

  /** Drops the leading whitespace (`str.lstrip`). */
  function TrimStart(s: string): (r: string)
    ensures |r| <= |s| && r == s[|s| - |r|..]
    ensures r == [] || !IsSpace(r[0])
    ensures AllSpace(s[..|s| - |r|])
  {
    if s != [] && IsSpace(s[0]) then
      var r := TrimStart(s[1..]);
      assert s[..|s| - |r|] == [s[0]] + s[1..][..|s| - 1 - |r|];
      r
    else s
  }

  /** Drops the trailing whitespace (`str.rstrip`). */
  function TrimEnd(s: string): (r: string)
    ensures |r| <= |s| && r == s[..|r|]
    ensures r == [] || !IsSpace(r[|r| - 1])
    ensures AllSpace(s[|r|..])
  {
    if s != [] && IsSpace(s[|s| - 1]) then
      var r := TrimEnd(s[..|s| - 1]);
      assert s[|r|..] == s[..|s| - 1][|r|..] + [s[|s| - 1]];
      r
    else s
  }

  /** `str.strip()` with no argument. */
  function Strip(s: string): string {
    TrimEnd(TrimStart(s))
  }

  /** `re.sub(r'\s+', ' ', s)`: each maximal run of whitespace becomes one space. */
  function CollapseWhitespace(s: string): string
    decreases |s|
  {
    if s == [] then []
    else if IsSpace(s[0]) then [' '] + CollapseWhitespace(TrimStart(s))
    else [s[0]] + CollapseWhitespace(s[1..])
  }

  /** One character of `re.sub(r'[^\w\s\-\.\,\:\;\(\)\/]', ' ', s)`. */
  function ReplaceChar(c: char): char {
    if IsAllowed(c) then c else ' '
  }

  function ReplaceDisallowed(s: string): string {
    seq(|s|, i requires 0 <= i < |s| => ReplaceChar(s[i]))
  }

  /** `_clean_text`. */
  function CleanText(s: string): string {
    Strip(ReplaceDisallowed(CollapseWhitespace(Lower(s))))
  }

  /** The characters of `s` that survive as text rather than as separators:
      allowed characters that are not whitespace, in order. */
  function Visible(s: string): string {
    if s == [] then []
    else (if IsAllowed(s[0]) && !IsSpace(s[0]) then [s[0]] else []) + Visible(s[1..])
  }

  // ----- Properties of the collapse step -----

  /** No two whitespace characters stand side by side. */
  predicate NoAdjacentSpaces(r: string) {
    forall i :: 0 <= i < |r| - 1 ==> !(IsSpace(r[i]) && IsSpace(r[i + 1]))
  }

  /** The space is the only whitespace character of `r`. */
  predicate OnlyPlainSpaces(r: string) {
    forall i :: 0 <= i < |r| ==> IsSpace(r[i]) ==> r[i] == ' '
  }

  /** The collapse leaves no two whitespace characters side by side, and its
      only whitespace character is the space. */
  lemma {:induction false} CollapseWhitespaceShape(s: string)
    ensures NoAdjacentSpaces(CollapseWhitespace(s))
    ensures OnlyPlainSpaces(CollapseWhitespace(s))
    decreases |s|
  {
    if s == [] {
    } else if IsSpace(s[0]) {
      var t := TrimStart(s);
      CollapseWhitespaceShape(t);
      var rest := CollapseWhitespace(t);
      assert rest == [] || !IsSpace(rest[0]) by {
        if t != [] {
          assert !IsSpace(t[0]);
          assert rest == [t[0]] + CollapseWhitespace(t[1..]);
        }
      }
      assert CollapseWhitespace(s) == [' '] + rest;
    } else {
      CollapseWhitespaceShape(s[1..]);
      assert CollapseWhitespace(s) == [s[0]] + CollapseWhitespace(s[1..]);
    }
  }

  /** Every character the collapse emits other than the space comes from its
      input. */
  lemma {:induction false} CollapseFromInput(s: string)
    ensures forall c :: c in CollapseWhitespace(s) && c != ' ' ==> c in s
    decreases |s|
  {
    if s == [] {
    } else if IsSpace(s[0]) {
      var t := TrimStart(s);
      CollapseFromInput(t);
      assert CollapseWhitespace(s) == [' '] + CollapseWhitespace(t);
      forall c | c in t
        ensures c in s
      {
        var j :| 0 <= j < |t| && t[j] == c;
        assert s[|s| - |t| + j] == c;
      }
    } else {
      var t := s[1..];
      CollapseFromInput(t);
      assert CollapseWhitespace(s) == [s[0]] + CollapseWhitespace(t);
      forall c | c in t
        ensures c in s
      {
        var j :| 0 <= j < |t| && t[j] == c;
        assert s[1 + j] == c;
      }
    }
  }

  /** No character of `r` is an upper-case letter. */
  predicate NoUpper(r: string) {
    forall i :: 0 <= i < |r| ==> !IsUpper(r[i])
  }

  /** The characters the cleaned text may contain. */
  predicate CleanChars(r: string) {
    forall i :: 0 <= i < |r| ==> IsAllowed(r[i]) && !IsUpper(r[i]) && (IsSpace(r[i]) ==> r[i] == ' ')
  }

  lemma CollapseKeepsNoUpper(s: string)
    requires NoUpper(s)
    ensures NoUpper(CollapseWhitespace(s)) && OnlyPlainSpaces(CollapseWhitespace(s))
  {
    var c := CollapseWhitespace(s);
    CollapseWhitespaceShape(s);
    CollapseFromInput(s);
    forall i | 0 <= i < |c| && c[i] != ' '
      ensures !IsUpper(c[i])
    {
      assert c[i] in c;
      var j :| 0 <= j < |s| && s[j] == c[i];
    }
  }

  lemma ReplaceMakesCleanChars(c: string)
    requires NoUpper(c) && OnlyPlainSpaces(c)
    ensures CleanChars(ReplaceDisallowed(c))
  {
  }

  lemma CleanCharsSlice(d: string, lo: nat, hi: nat)
    requires CleanChars(d) && lo <= hi <= |d|
    ensures CleanChars(d[lo..hi])
  {
    var e := d[lo..hi];
    forall i | 0 <= i < |e|
      ensures IsAllowed(e[i]) && !IsUpper(e[i]) && (IsSpace(e[i]) ==> e[i] == ' ')
    {
      assert e[i] == d[lo + i];
    }
  }

  lemma StripKeepsCleanChars(d: string)
    requires CleanChars(d)
    ensures CleanChars(Strip(d))
  {
    var t := TrimStart(d);
    CleanCharsSlice(d, |d| - |t|, |d|);
    assert t == d[|d| - |t|..|d|];
    var r := TrimEnd(t);
    CleanCharsSlice(t, 0, |r|);
    assert r == t[0..|r|];
  }

  // ----- Properties of the whole normaliser -----

  /** The cleaned text has no upper-case letters, only allowed characters, the
      space as its only whitespace character, and no whitespace at either end. */
  lemma CleanTextShape(s: string)
    ensures CleanChars(CleanText(s))
    ensures CleanText(s) == [] || (!IsSpace(CleanText(s)[0]) && !IsSpace(CleanText(s)[|CleanText(s)| - 1]))
  {
    var l := Lower(s);
    assert NoUpper(l);
    CollapseKeepsNoUpper(l);
    ReplaceMakesCleanChars(CollapseWhitespace(l));
    StripKeepsCleanChars(ReplaceDisallowed(CollapseWhitespace(l)));
    var t := TrimStart(ReplaceDisallowed(CollapseWhitespace(l)));
    var r := TrimEnd(t);
    assert r != [] ==> r[0] == t[0];
  }

  lemma {:induction false} VisibleAppend(a: string, b: string)
    ensures Visible(a + b) == Visible(a) + Visible(b)
  {
    if a == [] {
      assert a + b == b;
    } else {
      assert (a + b)[1..] == a[1..] + b;
      VisibleAppend(a[1..], b);
    }
  }

  lemma {:induction false} VisibleOfSpaces(s: string)
    requires AllSpace(s)
    ensures Visible(s) == []
  {
    if s != [] {
      VisibleOfSpaces(s[1..]);
    }
  }

  lemma VisibleTrimStart(s: string)
    ensures Visible(TrimStart(s)) == Visible(s)
  {
    var t := TrimStart(s);
    var lead := s[..|s| - |t|];
    assert s == lead + t;
    VisibleOfSpaces(lead);
    VisibleAppend(lead, t);
  }

  lemma VisibleTrimEnd(t: string)
    ensures Visible(TrimEnd(t)) == Visible(t)
  {
    var r := TrimEnd(t);
    var trail := t[|r|..];
    assert t == r + trail;
    VisibleOfSpaces(trail);
    VisibleAppend(r, trail);
  }

  lemma VisibleStrip(s: string)
    ensures Visible(Strip(s)) == Visible(s)
  {
    VisibleTrimStart(s);
    VisibleTrimEnd(TrimStart(s));
  }

  lemma {:induction false} VisibleReplace(s: string)
    ensures Visible(ReplaceDisallowed(s)) == Visible(s)
  {
    if s != [] {
      assert ReplaceDisallowed(s) == [ReplaceChar(s[0])] + ReplaceDisallowed(s[1..]);
      VisibleReplace(s[1..]);
    }
  }

  lemma {:induction false} VisibleCollapse(s: string)
    ensures Visible(CollapseWhitespace(s)) == Visible(s)
    decreases |s|
  {
    if s == [] {
    } else if IsSpace(s[0]) {
      var t := TrimStart(s);
      VisibleCollapse(t);
      assert s == s[..|s| - |t|] + t;
      VisibleOfSpaces(s[..|s| - |t|]);
      VisibleAppend(s[..|s| - |t|], t);
      VisibleAppend([' '], CollapseWhitespace(t));
    } else {
      VisibleCollapse(s[1..]);
      VisibleAppend([s[0]], CollapseWhitespace(s[1..]));
    }
  }

  /** Nothing the normaliser keeps is altered or lost: apart from separators,
      the cleaned text holds exactly the allowed non-whitespace characters of
      the lower-cased input, in their order. */
  lemma CleanTextKeepsContent(s: string)
    ensures Visible(CleanText(s)) == Visible(Lower(s))
  {
    var l := Lower(s);
    VisibleCollapse(l);
    VisibleReplace(CollapseWhitespace(l));
    VisibleStrip(ReplaceDisallowed(CollapseWhitespace(l)));
  }

  lemma CollapseCons(c: char, t: string)
    requires !IsSpace(c)
    ensures CollapseWhitespace([c] + t) == [c] + CollapseWhitespace(t)
  {
    assert ([c] + t)[1..] == t;
  }

  lemma TrimStartCons(c: char, t: string)
    requires IsSpace(c)
    ensures TrimStart([c] + t) == TrimStart(t)
  {
    assert ([c] + t)[1..] == t;
  }

  lemma TrimStartAtNonSpace(x: string)
    requires x != [] && !IsSpace(x[0])
    ensures TrimStart(x) == x
  {
  }

  lemma TrimEndAtNonSpace(x: string)
    requires x != [] && !IsSpace(x[|x| - 1])
    ensures TrimEnd(x) == x
  {
  }

  lemma TrimEndAtSpace(x: string)
    requires x != [] && IsSpace(x[|x| - 1])
    ensures TrimEnd(x) == TrimEnd(x[..|x| - 1])
  {
  }

  /** A text is its leading whitespace followed by what `TrimStart` keeps. */
  lemma TrimStartSplit(s: string)
    ensures s == s[..|s| - |TrimStart(s)|] + TrimStart(s)
    ensures AllSpace(s[..|s| - |TrimStart(s)|])
  {
  }

  /** A text is what `TrimEnd` keeps followed by its trailing whitespace. */
  lemma TrimEndSplit(s: string)
    ensures s == TrimEnd(s) + s[|TrimEnd(s)|..]
    ensures AllSpace(s[|TrimEnd(s)|..])
  {
  }

  /** Leading whitespace of any length is trimmed away. */
  lemma {:induction false} TrimStartOfSpaces(a: string, b: string)
    requires AllSpace(a)
    ensures TrimStart(a + b) == TrimStart(b)
  {
    if a != [] {
      assert IsSpace(a[0]) && AllSpace(a[1..]);
      assert a + b == [a[0]] + (a[1..] + b);
      TrimStartCons(a[0], a[1..] + b);
      TrimStartOfSpaces(a[1..], b);
    } else {
      assert a + b == b;
    }
  }

  lemma CollapseAtSpace(s: string)
    requires s != [] && IsSpace(s[0])
    ensures CollapseWhitespace(s) == [' '] + CollapseWhitespace(TrimStart(s))
  {
  }

  /** A lower-case letter or digit: kept as it is by every step of the
      normaliser. */
  predicate IsPlain(c: char) {
    'a' <= c <= 'z' || '0' <= c <= '9'
  }

  lemma CollapseSpaceWord(y: char)
    requires IsPlain(y)
    ensures CollapseWhitespace([' ', y]) == [' ', y]
  {
    var t1 := [y];
    var t2 := [' '] + t1;
    assert t2 == [' ', y];
    CollapseWord(y);
    TrimWord(y);
    TrimStartCons(' ', t1);
    CollapseAtSpace(t2);
  }

  lemma CollapseOneSpace(x: char, p: char, y: char)
    requires IsPlain(x) && IsPlain(y) && !IsSpace(p)
    ensures CollapseWhitespace([x, p, ' ', y]) == [x, p, ' ', y]
  {
    var t2 := [' ', y];
    var t3 := [p] + t2;
    var t4 := [x] + t3;
    CollapseSpaceWord(y);
    CollapseCons(p, t2);
    CollapseCons(x, t3);
    assert t4 == [x, p, ' ', y];
  }

  lemma TrimWord(y: char)
    requires IsPlain(y)
    ensures TrimStart([y]) == [y]
  {
  }

  lemma TrimTwoSpaces(y: char)
    requires IsPlain(y)
    ensures TrimStart([' ', ' ', y]) == [y]
  {
    var t1 := [y];
    var t2 := [' '] + t1;
    var t3 := [' '] + t2;
    TrimWord(y);
    TrimStartCons(' ', t1);
    TrimStartCons(' ', t2);
    assert t3 == [' ', ' ', y];
  }

  lemma CollapseWord(y: char)
    requires IsPlain(y)
    ensures CollapseWhitespace([y]) == [y]
  {
    CollapseCons(y, []);
    assert [y] == [y] + [];
  }

  lemma CollapseTwoSpaces(x: char, y: char)
    requires IsPlain(x) && IsPlain(y)
    ensures CollapseWhitespace([x, ' ', ' ', y]) == [x, ' ', y]
  {
    TrimTwoSpaces(y);
    CollapseWord(y);
    CollapseAtSpace([' ', ' ', y]);
    assert CollapseWhitespace([' ', ' ', y]) == [' ', y];
    assert [x, ' ', ' ', y] == [x] + [' ', ' ', y];
    CollapseCons(x, [' ', ' ', y]);
  }

  lemma LowerUnchanged(s: string)
    requires NoUpper(s)
    ensures Lower(s) == s
  {
  }

  lemma ReplaceUnchanged(s: string)
    requires forall i :: 0 <= i < |s| ==> IsAllowed(s[i])
    ensures ReplaceDisallowed(s) == s
  {
  }

  lemma StripUnchanged(s: string)
    requires s != [] && !IsSpace(s[0]) && !IsSpace(s[|s| - 1])
    ensures Strip(s) == s
  {
  }

  /** The normaliser's stages, one at a time. */
  lemma CleanTextOfStages(s: string, collapsed: string, r: string)
    requires Lower(s) == s && CollapseWhitespace(s) == collapsed
    requires ReplaceDisallowed(collapsed) == r && Strip(r) == r
    ensures CleanText(s) == r
  {
  }

  /** `x! y` cleans to `x  y`: the '!' turns into a second space. */
  lemma CleanExclamation(x: char, y: char)
    requires IsPlain(x) && IsPlain(y)
    ensures CleanText([x, '!', ' ', y]) == [x, ' ', ' ', y]
  {
    var s0 := [x, '!', ' ', y];
    var s1 := [x, ' ', ' ', y];
    assert Lower(s0) == s0 by { LowerUnchanged(s0); }
    assert CollapseWhitespace(s0) == s0 by { CollapseOneSpace(x, '!', y); }
    assert ReplaceDisallowed(s0) == s1;
    assert Strip(s1) == s1 by { StripUnchanged(s1); }
    CleanTextOfStages(s0, s0, s1);
  }

  /** `x  y` cleans to `x y`. */
  lemma CleanDoubleSpace(x: char, y: char)
    requires IsPlain(x) && IsPlain(y)
    ensures CleanText([x, ' ', ' ', y]) == [x, ' ', y]
  {
    var s0 := [x, ' ', ' ', y];
    var s1 := [x, ' ', y];
    assert Lower(s0) == s0 by { LowerUnchanged(s0); }
    assert CollapseWhitespace(s0) == s1 by { CollapseTwoSpaces(x, y); }
    assert ReplaceDisallowed(s1) == s1 by { ReplaceUnchanged(s1); }
    assert Strip(s1) == s1 by { StripUnchanged(s1); }
    CleanTextOfStages(s0, s1, s1);
  }

  /** The normaliser is not idempotent: `x! y` cleans to `x  y`, and cleaning
      that again gives `x y`. */
  lemma CleanTextNotIdempotent(x: char, y: char)
    requires IsPlain(x) && IsPlain(y)
    ensures CleanText(CleanText([x, '!', ' ', y])) != CleanText([x, '!', ' ', y])
  {
    CleanExclamation(x, y);
    CleanDoubleSpace(x, y);
  }

  /** An empty note cleans to the empty string. */
  lemma CleanTextEmpty()
    ensures CleanText("") == ""
  {
    assert Lower("") == "";
  }
}
