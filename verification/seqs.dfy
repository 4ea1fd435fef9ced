/** Sequence operations the model uses in several places: filtering with a
    predicate and sorting by a numeric key, largest first. */
module Seqs {

  /** `sub` is `s` with some elements left out and the others in their
      original order (matched greedily, which decides the question). */
  predicate IsSubsequence<T(==)>(sub: seq<T>, s: seq<T>)
    decreases |s|
  {
    if |sub| == 0 then true
    else if |s| == 0 then false
    else if sub[0] == s[0] then IsSubsequence(sub[1..], s[1..])
    else IsSubsequence(sub, s[1..])
  }

  /** A subsequence holds no element more often than the whole does. */
  lemma {:induction false} SubsequenceMultiset<T>(sub: seq<T>, s: seq<T>)
    requires IsSubsequence(sub, s)
    ensures multiset(sub) <= multiset(s)
    decreases |s|
  {
    if |sub| > 0 {
      assert s == [s[0]] + s[1..];
      if sub[0] == s[0] {
        assert sub == [sub[0]] + sub[1..];
        SubsequenceMultiset(sub[1..], s[1..]);
      } else {
        SubsequenceMultiset(sub, s[1..]);
      }
    }
  }

  /** Array.prototype.filter: the elements of `s` that `keep` accepts, in
      their order in `s`, each as often as it occurs there. */
  function Filter<T(!new)>(s: seq<T>, keep: T -> bool): (r: seq<T>)
    ensures |r| <= |s|
    ensures forall i :: 0 <= i < |r| ==> keep(r[i])
    ensures forall x :: x in r <==> x in s && keep(x)
    ensures forall x :: multiset(r)[x] == if keep(x) then multiset(s)[x] else 0
  {
    if |s| == 0 then []
    else
      assert s == [s[0]] + s[1..];
      if keep(s[0]) then [s[0]] + Filter(s[1..], keep) else Filter(s[1..], keep)
  }

  /** The filter keeps the order of what it keeps. */
  lemma {:induction false} FilterIsSubsequence<T(!new)>(s: seq<T>, keep: T -> bool)
    ensures IsSubsequence(Filter(s, keep), s)
    decreases |s|
  {
    if |s| > 0 {
      var r := Filter(s, keep);
      FilterIsSubsequence(s[1..], keep);
      if keep(s[0]) {
        assert r[1..] == Filter(s[1..], keep);
      } else {
        assert |r| > 0 ==> keep(r[0]);
      }
    }
  }

  /** The order and the counts pin the filter down: a subsequence of `s`
      holding each accepted element as often as `s` does, and no rejected
      one, is `Filter(s, keep)`. */
  lemma {:induction false} FilterUnique<T(!new)>(s: seq<T>, keep: T -> bool, r: seq<T>)
    requires IsSubsequence(r, s)
    requires forall x :: multiset(r)[x] == if keep(x) then multiset(s)[x] else 0
    ensures r == Filter(s, keep)
    decreases |s|
  {
    if |s| == 0 {
      assert |r| == 0;
    } else {
      var x := s[0];
      assert s == [x] + s[1..];
      if |r| > 0 && r[0] == x {
        assert r == [x] + r[1..];
        assert keep(x) by {
          assert multiset(r)[x] > 0;
        }
        forall y ensures multiset(r[1..])[y] == if keep(y) then multiset(s[1..])[y] else 0 {
          assert multiset(r)[y] == multiset(r[1..])[y] + (if y == x then 1 else 0);
          assert multiset(s)[y] == multiset(s[1..])[y] + (if y == x then 1 else 0);
        }
        FilterUnique(s[1..], keep, r[1..]);
      } else {
        assert IsSubsequence(r, s[1..]);
        SubsequenceMultiset(r, s[1..]);
        assert multiset(r)[x] <= multiset(s[1..])[x] < multiset(s)[x];
        forall y ensures multiset(r)[y] == if keep(y) then multiset(s[1..])[y] else 0 {
          assert multiset(s)[y] == multiset(s[1..])[y] + (if y == x then 1 else 0);
        }
        FilterUnique(s[1..], keep, r);
      }
    }
  }

  /** Filtering distributes over concatenation: what is kept of a prefix stays
      in front of what is kept of the rest, so relative order is preserved. */
  lemma {:induction false} FilterAppend<T(!new)>(a: seq<T>, b: seq<T>, keep: T -> bool)
    ensures Filter(a + b, keep) == Filter(a, keep) + Filter(b, keep)
    decreases |a|
  {
    if |a| == 0 {
      assert a + b == b;
    } else {
      assert (a + b)[1..] == a[1..] + b;
      FilterAppend(a[1..], b, keep);
    }
  }

  /** A filter that rejects nothing returns its input unchanged. */
  lemma {:induction false} FilterKeepsAll<T(!new)>(s: seq<T>, keep: T -> bool)
    requires forall i :: 0 <= i < |s| ==> keep(s[i])
    ensures Filter(s, keep) == s
    decreases |s|
  {
    if |s| > 0 {
      FilterKeepsAll(s[1..], keep);
      assert s == [s[0]] + s[1..];
    }
  }

  /** `s` is ordered by `key`, largest first. */
  predicate SortedDesc<T>(s: seq<T>, key: T -> real) {
    forall i, j :: 0 <= i < j < |s| ==> key(s[i]) >= key(s[j])
  }

  /** Putting in front an element that outranks every element keeps a
      largest-first sequence ordered. */
  lemma ConsSorted<T>(y: T, rest: seq<T>, key: T -> real)
    requires SortedDesc(rest, key)
    requires forall k :: 0 <= k < |rest| ==> key(y) >= key(rest[k])
    ensures SortedDesc([y] + rest, key)
  {
    var r := [y] + rest;
    forall i, j | 0 <= i < j < |r| ensures key(r[i]) >= key(r[j]) {
      assert r[j] == rest[j - 1];
      if i > 0 { assert r[i] == rest[i - 1]; }
    }
  }

  /** Every element of a sequence whose elements come from `s` and `x`
      ranks at most as high as a bound both respect. */
  lemma BoundedBy<T>(rest: seq<T>, s: seq<T>, x: T, key: T -> real, top: real)
    requires multiset(rest) == multiset(s) + multiset{x}
    requires forall k :: 0 <= k < |s| ==> key(s[k]) <= top
    requires key(x) <= top
    ensures forall k :: 0 <= k < |rest| ==> key(rest[k]) <= top
  {
    forall k | 0 <= k < |rest| ensures key(rest[k]) <= top {
      assert rest[k] in multiset(rest);
      if rest[k] != x {
        assert rest[k] in multiset(s);
        var m :| 0 <= m < |s| && s[m] == rest[k];
      }
    }
  }

  /** Inserts `x` into a largest-first sequence, in front of every element
      whose key does not exceed its own. */
  function InsertDesc<T>(x: T, s: seq<T>, key: T -> real): (r: seq<T>)
    requires SortedDesc(s, key)
    ensures |r| == |s| + 1
    ensures multiset(r) == multiset(s) + multiset{x}
    ensures SortedDesc(r, key)
  {
    if |s| == 0 || key(x) >= key(s[0]) then
      ConsSorted(x, s, key);
      [x] + s
    else
      var tail := s[1..];
      var rest := InsertDesc(x, tail, key);
      assert s == [s[0]] + tail;
      BoundedBy(rest, tail, x, key, key(s[0]));
      ConsSorted(s[0], rest, key);
      [s[0]] + rest
  }

  /** A largest-first permutation of `s`. */
  function SortDesc<T>(s: seq<T>, key: T -> real): (r: seq<T>)
    ensures SortedDesc(r, key)
    ensures multiset(r) == multiset(s)
    ensures |r| == |s|
  {
    if |s| == 0 then []
    else
      assert s == [s[0]] + s[1..];
      InsertDesc(s[0], SortDesc(s[1..], key), key)
  }

  /** In a largest-first sequence, nothing after position `k` outranks
      anything before it. */
  lemma SortedSplit<T>(sorted: seq<T>, key: T -> real, k: nat)
    requires SortedDesc(sorted, key)
    requires k <= |sorted|
    ensures multiset(sorted) - multiset(sorted[..k]) == multiset(sorted[k..])
    ensures forall x, y :: x in multiset(sorted[k..]) && y in sorted[..k] ==> key(x) <= key(y)
  {
    assert sorted == sorted[..k] + sorted[k..];
    forall x, y | x in multiset(sorted[k..]) && y in sorted[..k]
      ensures key(x) <= key(y)
    {
      var i :| 0 <= i < |sorted[k..]| && sorted[k..][i] == x;
      var j :| 0 <= j < k && sorted[j] == y;
      assert sorted[k + i] == x;
    }
  }

  /** A prefix of a largest-first sequence is largest-first, and it is
      part of the whole. */
  lemma PrefixOfSorted<T>(sorted: seq<T>, key: T -> real, k: nat)
    requires SortedDesc(sorted, key)
    requires k <= |sorted|
    ensures SortedDesc(sorted[..k], key)
    ensures multiset(sorted[..k]) <= multiset(sorted)
  {
    var p := sorted[..k];
    forall i, j | 0 <= i < j < |p| ensures key(p[i]) >= key(p[j]) {
      assert p[i] == sorted[i] && p[j] == sorted[j];
    }
    assert sorted == p + sorted[k..];
  }

  /** The first `n` elements of a largest-first permutation of `s` (the
      database's `sort({key: -1}).limit(n)`): as many as there are, up to `n`,
      in order, taken from `s`, and nothing left behind outranks them. */
  function TopBy<T>(s: seq<T>, key: T -> real, n: nat): (r: seq<T>)
    ensures |r| == if |s| < n then |s| else n
    ensures SortedDesc(r, key)
    ensures multiset(r) <= multiset(s)
    ensures forall x, y :: x in multiset(s) - multiset(r) && y in r ==> key(x) <= key(y)
  {
    var sorted := SortDesc(s, key);
    var k := if |s| < n then |s| else n;
    PrefixOfSorted(sorted, key, k);
    SortedSplit(sorted, key, k);
    sorted[..k]
  }
}
