/** Generic sequence operations shared by every view: the `Array.prototype.filter`
    of JavaScript, and what it means for one list to be an order-preserving
    selection of another. */
module Seqs {

  /** `r` can be obtained from `s` by deleting entries, without reordering. */
  predicate IsSubsequence<T(==)>(r: seq<T>, s: seq<T>)
    decreases |s|
  {
    if r == [] then true
    else if s == [] then false
    else (r[0] == s[0] && IsSubsequence(r[1..], s[1..])) || IsSubsequence(r, s[1..])
  }

  /** `xs.filter(p)`: the entries of `s` satisfying `p`, in their original order. */
  function Filter<T(!new)>(s: seq<T>, p: T -> bool): (r: seq<T>)
    ensures |r| <= |s|
    ensures forall x :: x in r <==> x in s && p(x)
    ensures forall i :: 0 <= i < |r| ==> p(r[i])
    ensures multiset(r) <= multiset(s)
  {
    if s == [] then []
    else
      assert s == [s[0]] + s[1..];
      if p(s[0]) then [s[0]] + Filter(s[1..], p) else Filter(s[1..], p)
  }

  lemma {:induction false} FilterIsSubsequence<T(!new)>(s: seq<T>, p: T -> bool)
    ensures IsSubsequence(Filter(s, p), s)
  {
    if s != [] {
      FilterIsSubsequence(s[1..], p);
      var r := Filter(s, p);
      if p(s[0]) {
        assert r[0] == s[0] && r[1..] == Filter(s[1..], p);
      }
    }
  }

  /** Filtering with a predicate every entry satisfies gives the list back. */
  lemma {:induction false} FilterAllPass<T(!new)>(s: seq<T>, p: T -> bool)
    requires forall i :: 0 <= i < |s| ==> p(s[i])
    ensures Filter(s, p) == s
  {
    if s != [] {
      FilterAllPass(s[1..], p);
      assert [s[0]] + s[1..] == s;
    }
  }

  /** Filtering a list with a given first entry. */
  lemma FilterCons<T(!new)>(a: T, t: seq<T>, p: T -> bool)
    ensures Filter([a] + t, p) == (if p(a) then [a] else []) + Filter(t, p)
  {
    assert ([a] + t)[1..] == t;
  }

  /** Filtering distributes over concatenation. */
  lemma {:induction false} FilterAppend<T(!new)>(a: seq<T>, b: seq<T>, p: T -> bool)
    ensures Filter(a + b, p) == Filter(a, p) + Filter(b, p)
  {
    if a == [] {
      assert a + b == b;
    } else {
      assert (a + b)[0] == a[0] && (a + b)[1..] == a[1..] + b;
      FilterAppend(a[1..], b, p);
    }
  }

  /** Filtering twice is filtering once by the conjunction. */
  lemma {:induction false} FilterFilter<T(!new)>(s: seq<T>, p: T -> bool, r: T -> bool, both: T -> bool)
    requires forall x :: x in s ==> both(x) == (p(x) && r(x))
    ensures Filter(Filter(s, p), r) == Filter(s, both)
  {
    if s != [] {
      FilterFilter(s[1..], p, r, both);
      if p(s[0]) {
        assert ([s[0]] + Filter(s[1..], p))[1..] == Filter(s[1..], p);
      }
    }
  }

  /** Predicates that agree on the entries of `s` filter it alike. */
  lemma {:induction false} FilterSame<T(!new)>(s: seq<T>, p: T -> bool, r: T -> bool)
    requires forall x :: x in s ==> p(x) == r(x)
    ensures Filter(s, p) == Filter(s, r)
  {
    if s != [] {
      FilterSame(s[1..], p, r);
    }
  }

  lemma {:induction false} SubsequenceTransitive<T>(a: seq<T>, b: seq<T>, c: seq<T>)
    requires IsSubsequence(a, b) && IsSubsequence(b, c)
    ensures IsSubsequence(a, c)
    decreases |c|
  {
    if a != [] && b != [] && c != [] {
      if b[0] == c[0] && IsSubsequence(b[1..], c[1..]) {
        if a[0] == b[0] && IsSubsequence(a[1..], b[1..]) {
          SubsequenceTransitive(a[1..], b[1..], c[1..]);
        } else {
          SubsequenceTransitive(a, b[1..], c[1..]);
        }
      } else {
        SubsequenceTransitive(a, b, c[1..]);
      }
    }
  }

  lemma PrefixExtend<T>(s: seq<T>, n: int)
    requires 0 < n <= |s|
    ensures s[..n - 1] + [s[n - 1]] == s[..n]
  {
  }

  /** Filtering by a predicate and by its negation splits a list in two:
      the lengths add up and every entry lands in exactly one part. */
  lemma {:induction false} FilterPartition<T(!new)>(s: seq<T>, p: T -> bool, q: T -> bool)
    requires forall x :: x in s ==> q(x) == !p(x)
    ensures |Filter(s, p)| + |Filter(s, q)| == |s|
    ensures multiset(Filter(s, p)) + multiset(Filter(s, q)) == multiset(s)
  {
    if s != [] {
      var t := s[1..];
      assert s == [s[0]] + t;
      assert q(s[0]) == !p(s[0]) by { assert s[0] in s; }
      FilterPartition(t, p, q);
      FilterCons(s[0], t, p);
      FilterCons(s[0], t, q);
    }
  }

  /** A filter keeps every occurrence of an entry that passes and none of one
      that does not. */
  lemma {:induction false} FilterCount<T(!new)>(s: seq<T>, p: T -> bool, x: T)
    ensures multiset(Filter(s, p))[x] == if p(x) then multiset(s)[x] else 0
  {
    if s != [] {
      var t := s[1..];
      assert s == [s[0]] + t;
      FilterCount(t, p, x);
      FilterCons(s[0], t, p);
    }
  }

  /** FilterCount, for every entry at once. */
  lemma FilterCounts<T(!new)>(s: seq<T>, p: T -> bool)
    ensures forall x :: multiset(Filter(s, p))[x] == if p(x) then multiset(s)[x] else 0
  {
    forall x ensures multiset(Filter(s, p))[x] == if p(x) then multiset(s)[x] else 0 {
      FilterCount(s, p, x);
    }
  }

  /** `R` holds between every entry and each later one. */
  predicate Pairwise<T>(s: seq<T>, R: (T, T) -> bool)
  {
    forall i, j :: 0 <= i < j < |s| ==> R(s[i], s[j])
  }

  /** Every entry a filter keeps satisfies what every entry of the input does. */
  lemma FilterBound<T(!new)>(s: seq<T>, p: T -> bool, P: T -> bool)
    requires forall k :: 0 <= k < |s| ==> P(s[k])
    ensures forall k :: 0 <= k < |Filter(s, p)| ==> P(Filter(s, p)[k])
  {
    var r := Filter(s, p);
    forall k | 0 <= k < |r| ensures P(r[k]) {
      assert r[k] in s;
    }
  }

  lemma PairwiseTail<T>(s: seq<T>, R: (T, T) -> bool)
    requires s != [] && Pairwise(s, R)
    ensures Pairwise(s[1..], R)
    ensures forall k :: 1 <= k < |s| ==> R(s[0], s[k])
  {
    forall i, j | 0 <= i < j < |s| - 1 ensures R(s[1..][i], s[1..][j]) {
      assert s[1..][i] == s[i + 1] && s[1..][j] == s[j + 1];
    }
  }

  lemma PairwiseCons<T>(a: T, rest: seq<T>, R: (T, T) -> bool)
    requires Pairwise(rest, R)
    requires forall k :: 0 <= k < |rest| ==> R(a, rest[k])
    ensures Pairwise([a] + rest, R)
  {
    var s := [a] + rest;
    forall i, j | 0 <= i < j < |s| ensures R(s[i], s[j]) {
      assert s[j] == rest[j - 1];
      if i > 0 {
        assert s[i] == rest[i - 1];
      }
    }
  }

  /** Filtering keeps the relative order of what it keeps, so a relation that
      holds pairwise before holds pairwise after. */
  lemma {:induction false} FilterPairwise<T(!new)>(s: seq<T>, p: T -> bool, R: (T, T) -> bool)
    requires Pairwise(s, R)
    ensures Pairwise(Filter(s, p), R)
  {
    if s != [] {
      var t := s[1..];
      PairwiseTail(s, R);
      FilterPairwise(t, p, R);
      FilterCons(s[0], t, p);
      assert s == [s[0]] + t;
      forall k | 0 <= k < |t| ensures R(s[0], t[k]) {
        assert t[k] == s[k + 1];
      }
      FilterBound(t, p, x => R(s[0], x));
      if p(s[0]) {
        PairwiseCons(s[0], Filter(t, p), R);
      }
    }
  }
}
