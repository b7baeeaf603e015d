/** Small shared vocabulary: optional values, filtering, and facts about sequences. */
module Basics {

  /** Python's `None` versus a present value. */
  datatype Option<+T> = None | Some(value: T) {

    /** The value, or `default` when there is none (Python's `x if x else default`). */
    function GetOr(default: T): T {
      match this
      case Some(v) => v
      case None => default
    }
  }

  /** The elements of `s` satisfying `p`, in their original order (a list comprehension). */
  function Filter<T>(s: seq<T>, p: T -> bool): (r: seq<T>)
    ensures forall i :: 0 <= i < |r| ==> r[i] in s && p(r[i])
    ensures forall i :: 0 <= i < |s| && p(s[i]) ==> s[i] in r
    ensures multiset(r) <= multiset(s)
  {
    if |s| == 0 then []
    else
      assert s == [s[0]] + s[1..];
      if p(s[0]) then [s[0]] + Filter(s[1..], p)
      else Filter(s[1..], p)
  }

  /** Filtering keeps every copy of a passing element and drops every copy of the others. */
  lemma {:induction false} FilterCount<T>(s: seq<T>, p: T -> bool, x: T)
    ensures multiset(Filter(s, p))[x] == if p(x) then multiset(s)[x] else 0
  {
    if |s| > 0 {
      assert s == [s[0]] + s[1..];
      FilterCount(s[1..], p, x);
      if p(s[0]) {
        assert Filter(s, p) == [s[0]] + Filter(s[1..], p);
      } else {
        assert Filter(s, p) == Filter(s[1..], p);
      }
    }
  }

  /** Every element occurs exactly once. */
  predicate Unique<T(==)>(s: seq<T>) {
    forall i :: 0 <= i < |s| ==> multiset(s)[s[i]] == 1
  }

  /** Fewer copies of a sequence without duplicates have none either. */
  lemma UniqueSubMultiset<T>(a: seq<T>, b: seq<T>)
    requires multiset(a) <= multiset(b) && Unique(b)
    ensures Unique(a)
  {
    forall i | 0 <= i < |a|
      ensures multiset(a)[a[i]] == 1
    {
      assert a[i] in multiset(a);
      assert a[i] in multiset(b);
      var k :| 0 <= k < |b| && b[k] == a[i];
      assert multiset(b)[b[k]] == 1;
    }
  }

  /** Two duplicate-free sequences with no element in common concatenate without duplicates. */
  lemma UniqueConcat<T>(a: seq<T>, b: seq<T>)
    requires Unique(a) && Unique(b)
    requires forall i :: 0 <= i < |a| ==> a[i] !in b
    ensures Unique(a + b)
  {
    var r := a + b;
    forall i | 0 <= i < |r|
      ensures multiset(r)[r[i]] == 1
    {
      assert multiset(r)[r[i]] == multiset(a)[r[i]] + multiset(b)[r[i]];
      if i < |a| {
        assert r[i] == a[i];
      } else {
        var j := i - |a|;
        assert r[i] == b[j];
      }
    }
  }

  /** `rel` holds between every element and every later one. */
  predicate Pairwise<T>(s: seq<T>, rel: (T, T) -> bool) {
    forall i, j :: 0 <= i < j < |s| ==> rel(s[i], s[j])
  }

  /** Filtering keeps a relation between earlier and later elements (it keeps their order). */
  lemma {:induction false} FilterPairwise<T>(s: seq<T>, p: T -> bool, rel: (T, T) -> bool)
    requires Pairwise(s, rel)
    ensures Pairwise(Filter(s, p), rel)
  {
    if |s| > 0 {
      var tail := Filter(s[1..], p);
      FilterPairwise(s[1..], p, rel);
      forall k | 0 <= k < |tail|
        ensures rel(s[0], tail[k])
      {
        assert tail[k] in s[1..];
        var m :| 0 <= m < |s[1..]| && s[1..][m] == tail[k];
        assert s[m + 1] == tail[k];
      }
      if p(s[0]) {
        var r := [s[0]] + tail;
        assert Filter(s, p) == r;
        forall i, j | 0 <= i < j < |r|
          ensures rel(r[i], r[j])
        {
          if i == 0 {
            assert r[j] == tail[j - 1];
          } else {
            assert r[i] == tail[i - 1] && r[j] == tail[j - 1];
          }
        }
      }
    }
  }
}
