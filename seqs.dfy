/** Sequence facts shared by the query and aggregation models: the rows a queryset filter
    keeps, ordering, absence of duplicates, and sums over the distinct values of a column. */
module Seqs {

  predicate NoDuplicates<T(==)>(s: seq<T>) {
    forall i, j :: 0 <= i < j < |s| ==> s[i] != s[j]
  }

  /** `a` is `b` with some elements left out, the rest kept in their order. */
  predicate IsSubsequence<T(==)>(a: seq<T>, b: seq<T>)
    decreases |b|
  {
    if a == [] then true
    else if b == [] then false
    else if a[0] == b[0] then IsSubsequence(a[1..], b[1..])
    else IsSubsequence(a, b[1..])
  }

  /** Every pair of elements of `s`, taken in order, is related by `le`. */
  ghost predicate SortedBy<T>(s: seq<T>, le: (T, T) -> bool) {
    forall i, j :: 0 <= i < j < |s| ==> le(s[i], s[j])
  }

  lemma {:induction false} SubsequenceMembers<T>(a: seq<T>, b: seq<T>)
    requires IsSubsequence(a, b)
    ensures forall x :: x in a ==> x in b
    decreases |b|
  {
    if a != [] && b != [] {
      if a[0] == b[0] {
        SubsequenceMembers(a[1..], b[1..]);
        forall x | x in a ensures x in b {
          if x != a[0] { assert x in a[1..]; }
        }
      } else {
        SubsequenceMembers(a, b[1..]);
      }
    }
  }

  /** Leaving elements out keeps a sequence sorted. */
  lemma {:induction false} SubsequenceSorted<T>(a: seq<T>, b: seq<T>, le: (T, T) -> bool)
    requires IsSubsequence(a, b) && SortedBy(b, le)
    ensures SortedBy(a, le)
    decreases |b|
  {
    if a != [] && b != [] {
      assert SortedBy(b[1..], le) by {
        forall i, j | 0 <= i < j < |b[1..]| ensures le(b[1..][i], b[1..][j]) {
          assert b[1..][i] == b[i + 1] && b[1..][j] == b[j + 1];
        }
      }
      if a[0] == b[0] {
        SubsequenceSorted(a[1..], b[1..], le);
        SubsequenceMembers(a[1..], b[1..]);
        forall i, j | 0 <= i < j < |a| ensures le(a[i], a[j]) {
          if i == 0 {
            assert a[j] == a[1..][j - 1];
            assert a[j] in a[1..];
            assert a[j] in b[1..];
            var m :| 0 <= m < |b[1..]| && b[1..][m] == a[j];
            assert le(b[0], b[m + 1]);
          } else {
            assert a[i] == a[1..][i - 1] && a[j] == a[1..][j - 1];
          }
        }
      } else {
        SubsequenceSorted(a, b[1..], le);
      }
    }
  }

  /** A subsequence of a sequence without duplicates has none either. */
  lemma {:induction false} SubsequenceNoDuplicates<T>(a: seq<T>, b: seq<T>)
    requires IsSubsequence(a, b) && NoDuplicates(b)
    ensures NoDuplicates(a)
    decreases |b|
  {
    if a != [] && b != [] {
      assert NoDuplicates(b[1..]) by {
        forall i, j | 0 <= i < j < |b[1..]| ensures b[1..][i] != b[1..][j] {
          assert b[1..][i] == b[i + 1] && b[1..][j] == b[j + 1];
        }
      }
      if a[0] == b[0] {
        SubsequenceNoDuplicates(a[1..], b[1..]);
        SubsequenceMembers(a[1..], b[1..]);
        forall i, j | 0 <= i < j < |a| ensures a[i] != a[j] {
          assert a[j] == a[1..][j - 1];
          if i == 0 {
            assert a[j] in b[1..];
            assert b[0] !in b[1..];
          } else {
            assert a[i] == a[1..][i - 1];
          }
        }
      } else {
        SubsequenceNoDuplicates(a, b[1..]);
      }
    }
  }

  /** Joining two sequences without duplicates and without common elements gives none. */
  lemma NoDuplicatesAppend<T>(a: seq<T>, b: seq<T>)
    requires NoDuplicates(a) && NoDuplicates(b)
    requires forall i :: 0 <= i < |a| ==> a[i] !in b
    ensures NoDuplicates(a + b)
  {
    forall i, j | 0 <= i < j < |a + b| ensures (a + b)[i] != (a + b)[j] {
      if i < |a| && j >= |a| {
        assert (a + b)[j] == b[j - |a|];
        assert (a + b)[i] == a[i];
      }
    }
  }

  /** The elements of `s` that satisfy `keep`, in their order (a queryset `.filter`). */
  function Filter<T(!new)>(s: seq<T>, keep: T -> bool): (r: seq<T>)
    ensures forall x :: x in r <==> x in s && keep(x)
    ensures IsSubsequence(r, s)
    decreases |s|
  {
    if s == [] then []
    else if keep(s[0]) then [s[0]] + Filter(s[1..], keep)
    else Filter(s[1..], keep)
  }

  /** Filtering keeps the order and the absence of duplicates of its input. */
  lemma FilterKeepsOrder<T(!new)>(s: seq<T>, keep: T -> bool, le: (T, T) -> bool)
    requires SortedBy(s, le)
    ensures SortedBy(Filter(s, keep), le)
  {
    SubsequenceSorted(Filter(s, keep), s, le);
  }

  lemma FilterKeepsNoDuplicates<T(!new)>(s: seq<T>, keep: T -> bool)
    requires NoDuplicates(s)
    ensures NoDuplicates(Filter(s, keep))
  {
    SubsequenceNoDuplicates(Filter(s, keep), s);
  }

  lemma {:induction false} FilterAppend<T(!new)>(a: seq<T>, b: seq<T>, keep: T -> bool)
    ensures Filter(a + b, keep) == Filter(a, keep) + Filter(b, keep)
    decreases |a|
  {
    if a != [] {
      assert (a + b)[1..] == a[1..] + b;
      FilterAppend(a[1..], b, keep);
    } else {
      assert a + b == b;
    }
  }

  lemma {:induction false} FilterKeepsAll<T(!new)>(s: seq<T>, keep: T -> bool)
    requires forall k :: 0 <= k < |s| ==> keep(s[k])
    ensures Filter(s, keep) == s
    decreases |s|
  {
    if s != [] {
      FilterKeepsAll(s[1..], keep);
    }
  }

  lemma {:induction false} FilterKeepsNone<T(!new)>(s: seq<T>, keep: T -> bool)
    requires forall k :: 0 <= k < |s| ==> !keep(s[k])
    ensures Filter(s, keep) == []
    decreases |s|
  {
    if s != [] {
      FilterKeepsNone(s[1..], keep);
    }
  }

  /** A test that holds exactly on the block `s[lo..hi]` keeps that block. */
  lemma {:induction false} FilterBlock<T(!new)>(s: seq<T>, keep: T -> bool, lo: nat, hi: nat)
    requires lo <= hi <= |s|
    requires forall k :: 0 <= k < |s| ==> (keep(s[k]) <==> lo <= k < hi)
    ensures Filter(s, keep) == s[lo..hi]
    decreases |s|
  {
    if hi == 0 {
      FilterKeepsNone(s, keep);
    } else {
      var lo' := if lo == 0 then 0 else lo - 1;
      var t := s[1..];
      forall k | 0 <= k < |t| ensures keep(t[k]) <==> lo' <= k < hi - 1 {
        assert t[k] == s[k + 1];
      }
      FilterBlock(t, keep, lo', hi - 1);
      if lo == 0 {
        assert keep(s[0]);
        assert Filter(s, keep) == [s[0]] + Filter(t, keep);
        assert s[lo..hi] == [s[0]] + t[0..hi - 1];
      } else {
        assert !keep(s[0]);
        assert Filter(s, keep) == Filter(t, keep);
        assert s[lo..hi] == t[lo - 1..hi - 1];
      }
    }
  }

  /** Two tests that agree on every element of `s` keep the same elements. */
  lemma {:induction false} FilterSameTest<T(!new)>(s: seq<T>, p: T -> bool, q: T -> bool)
    requires forall k :: 0 <= k < |s| ==> p(s[k]) == q(s[k])
    ensures Filter(s, p) == Filter(s, q)
    decreases |s|
  {
    if s != [] {
      FilterSameTest(s[1..], p, q);
    }
  }

  /** Filtering by `p` and then by `q` is filtering once by a test `r` that holds where
      both do. */
  lemma {:induction false} FilterTwice<T(!new)>(s: seq<T>, p: T -> bool, q: T -> bool, r: T -> bool)
    requires forall k :: 0 <= k < |s| ==> r(s[k]) == (p(s[k]) && q(s[k]))
    ensures Filter(Filter(s, p), q) == Filter(s, r)
    decreases |s|
  {
    if s != [] {
      FilterTwice(s[1..], p, q, r);
    }
  }

  /** `s` with every occurrence of `x` removed (a queryset `.delete()`). */
  function Without<T(==,!new)>(s: seq<T>, x: T): (r: seq<T>)
    ensures x !in r
    ensures forall y :: y in r ==> y in s
    ensures forall y :: y in s && y != x ==> y in r
    ensures IsSubsequence(r, s)
  {
    Filter(s, y => y != x)
  }

  lemma WithoutKeepsNoDuplicates<T(!new)>(s: seq<T>, x: T)
    requires NoDuplicates(s)
    ensures NoDuplicates(Without(s, x))
  {
    SubsequenceNoDuplicates(Without(s, x), s);
  }

  /** Removing an element just appended to a sequence that lacked it restores the sequence. */
  lemma WithoutAppended<T(!new)>(s: seq<T>, x: T)
    requires x !in s
    ensures Without(s + [x], x) == s
  {
    var keep := y => y != x;
    FilterAppend(s, [x], keep);
    FilterKeepsAll(s, keep);
  }

  /** The set of elements of `s`, Python's `set(s)`. */
  function ToSet<T(!new)>(s: seq<T>): (r: set<T>)
    ensures forall x :: x in r <==> x in s
  {
    set x | x in s
  }

  /** `len(set(s)) == len(s)` holds exactly when `s` has no duplicates. */
  lemma {:induction false} ToSetSize<T(!new)>(s: seq<T>)
    ensures |ToSet(s)| <= |s|
    ensures |ToSet(s)| == |s| <==> NoDuplicates(s)
    decreases |s|
  {
    if s != [] {
      var t := s[1..];
      ToSetSize(t);
      assert ToSet(s) == {s[0]} + ToSet(t) by {
        forall x | x in ToSet(s) ensures x in {s[0]} + ToSet(t) {
          if x != s[0] { var k :| 0 <= k < |s| && s[k] == x; assert t[k - 1] == x; }
        }
      }
      assert NoDuplicates(s) <==> s[0] !in t && NoDuplicates(t) by {
        if NoDuplicates(s) {
          forall i, j | 0 <= i < j < |t| ensures t[i] != t[j] {
            assert t[i] == s[i + 1] && t[j] == s[j + 1];
          }
          forall k | 0 <= k < |t| ensures t[k] != s[0] { assert t[k] == s[k + 1]; }
        }
        if s[0] !in t && NoDuplicates(t) {
          forall i, j | 0 <= i < j < |s| ensures s[i] != s[j] {
            assert s[j] == t[j - 1];
            if i > 0 { assert s[i] == t[i - 1]; }
          }
        }
      }
      if s[0] in t {
        assert ToSet(s) == ToSet(t);
      } else {
        assert s[0] !in ToSet(t);
      }
    }
  }

  function Sum(s: seq<int>): int {
    if s == [] then 0 else s[0] + Sum(s[1..])
  }

  /** The distinct values of `s`, each once (its last occurrence kept). */
  function Dedup<T(==,!new)>(s: seq<T>): (r: seq<T>)
    ensures forall x :: x in r ==> x in s
    ensures forall x :: x in s ==> x in r
    ensures NoDuplicates(r)
  {
    if s == [] then []
    else if s[0] in s[1..] then Dedup(s[1..])
    else [s[0]] + Dedup(s[1..])
  }

  /** A sequence that has no duplicates is its own set of distinct values. */
  lemma {:induction false} DedupOfDistinct<T(!new)>(s: seq<T>)
    requires NoDuplicates(s)
    ensures Dedup(s) == s
    decreases |s|
  {
    if s != [] {
      assert s[0] !in s[1..] by {
        forall k | 0 <= k < |s[1..]| ensures s[1..][k] != s[0] {
          assert s[1..][k] == s[k + 1];
        }
      }
      assert NoDuplicates(s[1..]) by {
        forall i, j | 0 <= i < j < |s[1..]| ensures s[1..][i] != s[1..][j] {
          assert s[1..][i] == s[i + 1] && s[1..][j] == s[j + 1];
        }
      }
      DedupOfDistinct(s[1..]);
    }
  }

  /** SQL's `SUM(DISTINCT column)`: each distinct value counted once. */
  function SumDistinct(s: seq<int>): int {
    Sum(Dedup(s))
  }

  lemma {:induction false} SumRemove(s: seq<int>, k: int)
    requires 0 <= k < |s|
    ensures Sum(s) == s[k] + Sum(s[..k] + s[k + 1..])
  {
    if k > 0 {
      SumRemove(s[1..], k - 1);
      assert s[1..][..k - 1] + s[1..][k..] == (s[..k] + s[k + 1..])[1..];
    } else {
      assert s[..0] + s[1..] == s[1..];
    }
  }

  /** Removing the element at `k` from a sequence without duplicates leaves every other
      element and only those, still without duplicates. */
  lemma RemoveAt(b: seq<int>, k: nat)
    requires NoDuplicates(b) && k < |b|
    ensures var rest := b[..k] + b[k + 1..];
      && NoDuplicates(rest)
      && (forall x :: x in rest <==> x in b && x != b[k])
  {
    var rest := b[..k] + b[k + 1..];
    forall i, j | 0 <= i < j < |rest| ensures rest[i] != rest[j] {
      var i' := if i < k then i else i + 1;
      var j' := if j < k then j else j + 1;
      assert rest[i] == b[i'] && rest[j] == b[j'];
    }
    forall x ensures x in rest <==> x in b && x != b[k] {
      if x in rest {
        var i :| 0 <= i < |rest| && rest[i] == x;
        assert rest[i] == b[if i < k then i else i + 1];
      }
      if x in b && x != b[k] {
        var i :| 0 <= i < |b| && b[i] == x;
        assert b[i] == rest[if i < k then i else i - 1];
      }
    }
  }

  /** The sum of a sequence without duplicates depends only on its set of elements. */
  lemma {:induction false} SumOfSameSet(a: seq<int>, b: seq<int>)
    requires NoDuplicates(a) && NoDuplicates(b)
    requires forall x :: x in a <==> x in b
    ensures Sum(a) == Sum(b)
    decreases |a|
  {
    if a == [] {
      ToSetSize(b);
      assert ToSet(b) == {};
    } else {
      assert a[0] in a;
      var k :| 0 <= k < |b| && b[k] == a[0];
      var rest := b[..k] + b[k + 1..];
      var tail := a[1..];
      SumRemove(b, k);
      RemoveAt(b, k);
      RemoveAt(a, 0);
      assert a[..0] + a[1..] == tail;
      SumOfSameSet(tail, rest);
    }
  }

  /** `SUM(DISTINCT ...)` depends only on the set of values in the column. */
  lemma SumDistinctOfSameSet(a: seq<int>, b: seq<int>)
    requires forall x :: x in a ==> x in b
    requires forall x :: x in b ==> x in a
    ensures SumDistinct(a) == SumDistinct(b)
  {
    var da, db := Dedup(a), Dedup(b);
    assert forall x :: x in da <==> x in db;
    SumOfSameSet(da, db);
  }
}
