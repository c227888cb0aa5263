/**
 * `codes.sort(key=lambda x: x.confidence, reverse=True)`: Python's list sort
 * is stable, also with `reverse=True`, so candidates of equal confidence keep
 * their relative order. `SortDesc` is that result, written as an insertion
 * sort.
 */
module Ranking {
  import opened Model

  /** Non-increasing confidence. */
  predicate SortedDesc(xs: seq<CptCode>) {
    forall i, j :: 0 <= i < j < |xs| ==> xs[i].confidence >= xs[j].confidence
  }

  /** Puts `x` in front of the first entry whose confidence does not exceed
      its own. */
  function Insert(x: CptCode, ys: seq<CptCode>): (r: seq<CptCode>)
    ensures multiset(r) == multiset(ys) + multiset{x}
  {
    if ys == [] || ys[0].confidence <= x.confidence then [x] + ys
    else
      assert ys == [ys[0]] + ys[1..];
      [ys[0]] + Insert(x, ys[1..])
  }

  /** Putting in front an entry at least as confident as all the others keeps
      the order. */
  lemma ConsSorted(h: CptCode, rest: seq<CptCode>)
    requires SortedDesc(rest)
    requires forall k :: 0 <= k < |rest| ==> rest[k].confidence <= h.confidence
    ensures SortedDesc([h] + rest)
  {
    var r := [h] + rest;
    forall i, j | 0 <= i < j < |r|
      ensures r[i].confidence >= r[j].confidence
    {
      assert r[j] == rest[j - 1];
      if i > 0 {
        assert r[i] == rest[i - 1];
      }
    }
  }

  lemma InsertBounded(x: CptCode, ys: seq<CptCode>, b: real)
    requires x.confidence <= b
    requires forall k :: 0 <= k < |ys| ==> ys[k].confidence <= b
    ensures forall k :: 0 <= k < |Insert(x, ys)| ==> Insert(x, ys)[k].confidence <= b
  {
    var r := Insert(x, ys);
    forall k | 0 <= k < |r|
      ensures r[k].confidence <= b
    {
      assert r[k] in multiset(r);
      if r[k] != x {
        assert r[k] in multiset(ys);
        var m :| 0 <= m < |ys| && ys[m] == r[k];
      }
    }
  }

  lemma {:induction false} InsertSorted(x: CptCode, ys: seq<CptCode>)
    requires SortedDesc(ys)
    ensures SortedDesc(Insert(x, ys))
  {
    if ys == [] || ys[0].confidence <= x.confidence {
      ConsSorted(x, ys);
    } else {
      var tail := ys[1..];
      assert SortedDesc(tail) by {
        forall i, j | 0 <= i < j < |tail| ensures tail[i].confidence >= tail[j].confidence {
          assert tail[i] == ys[i + 1] && tail[j] == ys[j + 1];
        }
      }
      InsertSorted(x, tail);
      assert forall k :: 0 <= k < |tail| ==> tail[k].confidence <= ys[0].confidence by {
        forall k | 0 <= k < |tail| ensures tail[k].confidence <= ys[0].confidence {
          assert tail[k] == ys[k + 1];
        }
      }
      InsertBounded(x, tail, ys[0].confidence);
      ConsSorted(ys[0], Insert(x, tail));
    }
  }

  /** The stable sort by confidence, highest first. */
  function SortDesc(xs: seq<CptCode>): (r: seq<CptCode>)
    ensures multiset(r) == multiset(xs)
    ensures SortedDesc(r)
  {
    if xs == [] then []
    else
      assert xs == [xs[0]] + xs[1..];
      InsertSorted(xs[0], SortDesc(xs[1..]));
      Insert(xs[0], SortDesc(xs[1..]))
  }

  /** The entries of confidence `v`, in order. */
  function Tied(xs: seq<CptCode>, v: real): seq<CptCode> {
    if xs == [] then []
    else (if xs[0].confidence == v then [xs[0]] else []) + Tied(xs[1..], v)
  }

  lemma {:induction false} InsertTied(x: CptCode, ys: seq<CptCode>, v: real)
    ensures Tied(Insert(x, ys), v) == (if x.confidence == v then [x] else []) + Tied(ys, v)
  {
    if ys == [] || ys[0].confidence <= x.confidence {
      assert ([x] + ys)[1..] == ys;
    } else {
      InsertTied(x, ys[1..], v);
      assert ([ys[0]] + Insert(x, ys[1..]))[1..] == Insert(x, ys[1..]);
    }
  }

  /** The sort is stable: for every confidence value, the entries that carry it
      appear in the same order before and after sorting. */
  lemma {:induction false} SortDescStable(xs: seq<CptCode>, v: real)
    ensures Tied(SortDesc(xs), v) == Tied(xs, v)
  {
    if xs != [] {
      SortDescStable(xs[1..], v);
      InsertTied(xs[0], SortDesc(xs[1..]), v);
    }
  }

  lemma SortDescMembers(xs: seq<CptCode>)
    ensures |SortDesc(xs)| == |xs|
    ensures forall x :: x in SortDesc(xs) <==> x in xs
  {
    var r := SortDesc(xs);
    assert |r| == |multiset(r)| == |multiset(xs)| == |xs|;
    forall x ensures x in r <==> x in xs {
      assert x in r <==> x in multiset(r);
      assert x in xs <==> x in multiset(xs);
    }
  }
}
