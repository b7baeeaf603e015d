/**
 * Python's `sorted` / `list.sort` with a key: a stable insertion sort over an
 * ordering relation `le` ("key of a <= key of b"). Every sort in the bot
 * (SQL `ORDER BY`, urgency order, days-until order, distance order, code
 * order) is an instance.
 */
module Sorting {
  import opened Basics

  /** `le` is total and transitive: comparing two keys always answers. */
  ghost predicate TotalPreorder<T(!new)>(le: (T, T) -> bool) {
    && (forall a, b :: le(a, b) || le(b, a))
    && (forall a, b, c :: le(a, b) && le(b, c) ==> le(a, c))
  }

  predicate SortedBy<T>(s: seq<T>, le: (T, T) -> bool) {
    forall i, j :: 0 <= i < j < |s| ==> le(s[i], s[j])
  }

  /** Insert `x` in front of the first element it does not follow. */
  function Insert<T>(x: T, s: seq<T>, le: (T, T) -> bool): (r: seq<T>)
    ensures multiset(r) == multiset(s) + multiset{x}
    ensures |r| == |s| + 1
  {
    if |s| == 0 then [x]
    else if le(x, s[0]) then [x] + s
    else
      assert s == [s[0]] + s[1..];
      [s[0]] + Insert(x, s[1..], le)
  }

  /** Stable sort: elements with equal keys keep their input order. */
  function SortBy<T>(s: seq<T>, le: (T, T) -> bool): (r: seq<T>)
    ensures multiset(r) == multiset(s)
    ensures |r| == |s|
  {
    if |s| == 0 then []
    else
      assert s == [s[0]] + s[1..];
      Insert(s[0], SortBy(s[1..], le), le)
  }

  lemma {:induction false} InsertSorted<T(!new)>(x: T, s: seq<T>, le: (T, T) -> bool)
    requires TotalPreorder(le)
    requires SortedBy(s, le)
    ensures SortedBy(Insert(x, s, le), le)
  {
    if |s| > 0 && !le(x, s[0]) {
      var tail := Insert(x, s[1..], le);
      InsertSorted(x, s[1..], le);
      forall y | y in multiset(tail)
        ensures le(s[0], y)
      {
        assert y in multiset(s[1..]) || y == x;
        if y != x {
          var k :| 0 <= k < |s[1..]| && s[1..][k] == y;
          assert s[k + 1] == y;
        }
      }
      var r := [s[0]] + tail;
      forall i, j | 0 <= i < j < |r|
        ensures le(r[i], r[j])
      {
        if i == 0 {
          assert r[j] == tail[j - 1];
          assert r[j] in multiset(tail);
        } else {
          assert r[i] == tail[i - 1] && r[j] == tail[j - 1];
        }
      }
    }
  }

  /** The result of `SortBy` is ordered by `le`. */
  lemma {:induction false} SortBySorted<T(!new)>(s: seq<T>, le: (T, T) -> bool)
    requires TotalPreorder(le)
    ensures SortedBy(SortBy(s, le), le)
  {
    if |s| > 0 {
      SortBySorted(s[1..], le);
      InsertSorted(s[0], SortBy(s[1..], le), le);
    }
  }

  /** Elements of a sequence, as a set, through a permutation. */
  lemma SameElements<T>(a: seq<T>, b: seq<T>, x: T)
    requires multiset(a) == multiset(b)
    ensures x in a <==> x in b
  {
    assert x in a <==> x in multiset(a);
    assert x in b <==> x in multiset(b);
  }

  /** In a sequence related pairwise by `rel`, an element unrelated to itself occurs once. */
  lemma {:induction false} PairwiseCountOne<T>(s: seq<T>, rel: (T, T) -> bool, i: int)
    requires Pairwise(s, rel) && 0 <= i < |s| && !rel(s[i], s[i])
    ensures multiset(s)[s[i]] == 1
  {
    assert s == [s[0]] + s[1..];
    var tail := s[1..];
    assert Pairwise(tail, rel) by {
      forall a, b | 0 <= a < b < |tail|
        ensures rel(tail[a], tail[b])
      {
        assert rel(s[a + 1], s[b + 1]);
      }
    }
    if i == 0 {
      assert s[0] !in tail by {
        forall k | 0 <= k < |tail|
          ensures tail[k] != s[0]
        {
          assert rel(s[0], s[k + 1]);
        }
      }
    } else {
      PairwiseCountOne(tail, rel, i - 1);
      assert rel(s[0], s[i]);
    }
  }

  /** A symmetric pairwise relation survives any permutation (a sort, in particular). */
  lemma PermutationKeepsPairwise<T(!new)>(x: seq<T>, r: seq<T>, rel: (T, T) -> bool)
    requires multiset(r) == multiset(x)
    requires Pairwise(x, rel)
    requires forall a, b :: rel(a, b) ==> rel(b, a)
    ensures Pairwise(r, rel)
  {
    forall i, j | 0 <= i < j < |r|
      ensures rel(r[i], r[j])
    {
      assert r[i] in multiset(x) && r[j] in multiset(x);
      var a :| 0 <= a < |x| && x[a] == r[i];
      var b :| 0 <= b < |x| && x[b] == r[j];
      if a < b {
        assert rel(x[a], x[b]);
      } else if b < a {
        assert rel(x[b], x[a]);
      } else if !rel(x[a], x[a]) {
        PairwiseCountOne(x, rel, a);
        TwoPositionsCount(r, i, j);
        assert false;
      }
    }
  }

  /** A value at two positions occurs at least twice. */
  lemma TwoPositionsCount<T>(r: seq<T>, i: int, j: int)
    requires 0 <= i < j < |r| && r[i] == r[j]
    ensures multiset(r)[r[i]] >= 2
  {
    assert r == r[..j] + r[j..];
    assert r[i] in r[..j] && r[j] in r[j..];
    assert multiset(r)[r[i]] == multiset(r[..j])[r[i]] + multiset(r[j..])[r[i]];
  }
}
