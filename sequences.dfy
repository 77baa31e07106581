/** Sequence operations behind the pandas and torch calls of the core: boolean-mask filtering,
    `head(n)`, and sorting by a key (`sort_values`, `torch.topk`). */
module Sequences {

  // ---------------------------------------------------------------------------
  // head(n)
  // ---------------------------------------------------------------------------

  function Min(a: int, b: int): int {
    if a <= b then a else b
  }

  /** `DataFrame.head(n)`: the first `n` items; for a negative `n`, all but the last `-n`. */
  function Head<T>(s: seq<T>, n: int): (r: seq<T>)
    ensures r <= s
    ensures n >= 0 ==> |r| == Min(n, |s|)
    ensures n < 0 ==> |r| == if -n <= |s| then |s| + n else 0
  {
    if n >= 0 then (if n <= |s| then s[..n] else s)
    else if -n <= |s| then s[..|s| + n] else []
  }

  // ---------------------------------------------------------------------------
  // Filtering and subsequences
  // ---------------------------------------------------------------------------

  /** `a` can be obtained from `b` by deleting items, keeping the order of the rest. */
  predicate IsSubsequence<T(==)>(a: seq<T>, b: seq<T>)
    decreases |b|
  {
    if a == [] then true
    else if b == [] then false
    else if a[0] == b[0] then IsSubsequence(a[1..], b[1..])
    else IsSubsequence(a, b[1..])
  }

  /** A boolean mask applied to a sequence: `df[mask]`. */
  function Filter<T>(s: seq<T>, p: T -> bool): seq<T> {
    if s == [] then []
    else if p(s[0]) then [s[0]] + Filter(s[1..], p)
    else Filter(s[1..], p)
  }

  /** Masking keeps exactly the items that satisfy the mask, in their original order and with
      their multiplicities. */
  lemma {:induction false} FilterSpec<T>(s: seq<T>, p: T -> bool)
    ensures IsSubsequence(Filter(s, p), s)
    ensures forall x :: x in Filter(s, p) <==> x in s && p(x)
    ensures |Filter(s, p)| <= |s|
    ensures multiset(Filter(s, p)) <= multiset(s)
  {
    if s != [] {
      FilterSpec(s[1..], p);
      assert s == [s[0]] + s[1..];
      if p(s[0]) {
        assert Filter(s, p)[1..] == Filter(s[1..], p);
      } else {
        SubsequenceOfTail(Filter(s, p), s);
      }
    }
  }

  /** A subsequence of the tail is a subsequence of the whole. */
  lemma {:induction false} SubsequenceOfTail<T>(a: seq<T>, b: seq<T>)
    requires b != [] && IsSubsequence(a, b[1..])
    ensures IsSubsequence(a, b)
    decreases |b|, 1
  {
    if a != [] && a[0] == b[0] {
      // From a subsequence of b[1..] starting with b[0], dropping that first item
      // leaves a subsequence of b[1..] as well.
      DropFirst(a, b[1..]);
    }
  }

  /** Removing the first item of a subsequence keeps it a subsequence. */
  lemma {:induction false} DropFirst<T>(a: seq<T>, b: seq<T>)
    requires a != [] && IsSubsequence(a, b)
    ensures IsSubsequence(a[1..], b)
    decreases |b|, 2
  {
    assert b != [];
    if a[0] == b[0] {
      if a[1..] != [] {
        SubsequenceOfTail(a[1..], b);
      }
    } else {
      DropFirst(a, b[1..]);
      if a[1..] != [] {
        SubsequenceOfTail(a[1..], b);
      }
    }
  }

  /** A prefix of a subsequence is a subsequence. */
  lemma {:induction false} PrefixOfSubsequence<T>(p: seq<T>, a: seq<T>, b: seq<T>)
    requires p <= a && IsSubsequence(a, b)
    ensures IsSubsequence(p, b)
    decreases |b|
  {
    if p != [] {
      assert a != [] && b != [] && p[0] == a[0];
      if a[0] == b[0] {
        PrefixOfSubsequence(p[1..], a[1..], b[1..]);
      } else {
        PrefixOfSubsequence(p, a, b[1..]);
      }
    }
  }

  /** The first `n` items a mask keeps: a subsequence of the input, every item passes the
      mask, and for `n >= 0` there are `min(n, number of passing items)` of them. */
  lemma HeadOfFilter<T>(s: seq<T>, p: T -> bool, n: int)
    ensures IsSubsequence(Head(Filter(s, p), n), s)
    ensures forall x :: x in Head(Filter(s, p), n) ==> p(x)
    ensures n >= 0 ==> |Head(Filter(s, p), n)| == Min(n, CountIf(s, p))
  {
    var all := Filter(s, p);
    var h := Head(all, n);
    FilterSpec(s, p);
    PrefixOfSubsequence(h, all, s);
    CountIfFilter(s, p);
    forall x | x in h ensures p(x) {
      var i :| 0 <= i < |h| && h[i] == x;
      assert all[i] == x;
    }
  }

  /** No item occurs twice. */
  predicate Distinct<T(==)>(s: seq<T>) {
    forall a, b :: 0 <= a < b < |s| ==> s[a] != s[b]
  }

  lemma {:induction false} DistinctCounts<T>(s: seq<T>, x: T)
    requires Distinct(s)
    ensures multiset(s)[x] <= 1
  {
    if s != [] {
      assert s == [s[0]] + s[1..];
      DistinctCounts(s[1..], x);
      if x == s[0] {
        assert x !in s[1..];
      }
    }
  }

  /** A permutation of a sequence without repetitions has none either. */
  lemma PermutationDistinct<T>(s: seq<T>, t: seq<T>)
    requires multiset(s) == multiset(t) && Distinct(t)
    ensures Distinct(s)
  {
    forall a, b | 0 <= a < b < |s| ensures s[a] != s[b] {
      if s[a] == s[b] {
        var x := s[a];
        assert s == s[..a] + [x] + s[a + 1..b] + [x] + s[b + 1..];
        assert multiset(s)[x] >= 2;
        DistinctCounts(t, x);
        assert false;
      }
    }
  }

  // ---------------------------------------------------------------------------
  // Counting
  // ---------------------------------------------------------------------------

  function CountIf<T>(s: seq<T>, p: T -> bool): (n: nat)
    ensures n <= |s|
  {
    if s == [] then 0 else (if p(s[0]) then 1 else 0) + CountIf(s[1..], p)
  }

  lemma {:induction false} CountIfAppend<T>(a: seq<T>, b: seq<T>, p: T -> bool)
    ensures CountIf(a + b, p) == CountIf(a, p) + CountIf(b, p)
  {
    if a != [] {
      assert (a + b)[0] == a[0];
      assert (a + b)[1..] == a[1..] + b;
      CountIfAppend(a[1..], b, p);
    } else {
      assert a + b == b;
    }
  }

  /** Removing the item at `i` lowers the count by one exactly when that item is counted. */
  lemma {:induction false} CountIfRemove<T>(t: seq<T>, i: nat, p: T -> bool)
    requires i < |t|
    ensures CountIf(t, p) == CountIf(t[..i] + t[i + 1..], p) + (if p(t[i]) then 1 else 0)
  {
    var a, c := t[..i], t[i + 1..];
    var m := [t[i]] + c;
    assert m[0] == t[i] && m[1..] == c;
    assert CountIf(m, p) == (if p(t[i]) then 1 else 0) + CountIf(c, p);
    assert t == a + m;
    CountIfAppend(a, m, p);
    CountIfAppend(a, c, p);
  }

  /** Counting depends only on which items there are, not on their order. */
  lemma {:induction false} CountIfPermutation<T>(s: seq<T>, t: seq<T>, p: T -> bool)
    requires multiset(s) == multiset(t)
    ensures CountIf(s, p) == CountIf(t, p)
    decreases |s|
  {
    if s == [] {
      assert |t| == |multiset(t)| == 0;
    } else {
      var x := s[0];
      assert x in multiset(t);
      var i :| 0 <= i < |t| && t[i] == x;
      var u := t[..i] + t[i + 1..];
      RemoveFromMultiset(t, i);
      assert s == [x] + s[1..];
      assert multiset(s[1..]) == multiset(s) - multiset{x};
      CountIfPermutation(s[1..], u, p);
      CountIfRemove(t, i, p);
    }
  }

  lemma RemoveFromMultiset<T>(t: seq<T>, i: nat)
    requires i < |t|
    ensures multiset(t[..i] + t[i + 1..]) == multiset(t) - multiset{t[i]}
  {
    assert t == t[..i] + [t[i]] + t[i + 1..];
  }

  /** Counting over a mask is the length of the masked sequence. */
  lemma {:induction false} CountIfFilter<T>(s: seq<T>, p: T -> bool)
    ensures CountIf(s, p) == |Filter(s, p)|
  {
    if s != [] {
      CountIfFilter(s[1..], p);
    }
  }

  // ---------------------------------------------------------------------------
  // Sorting by a total preorder
  // ---------------------------------------------------------------------------

  /** `le` orders all values: any two are comparable, and the order is transitive. */
  ghost predicate TotalPreorder<T(!new)>(le: (T, T) -> bool) {
    (forall a, b :: le(a, b) || le(b, a)) &&
    (forall a, b, c :: le(a, b) && le(b, c) ==> le(a, c))
  }

  predicate SortedBy<T>(s: seq<T>, le: (T, T) -> bool) {
    forall i, j :: 0 <= i < j < |s| ==> le(s[i], s[j])
  }

  /** Insert `x` before the first item it is `le` to. */
  function Insert<T(!new)>(x: T, s: seq<T>, le: (T, T) -> bool): (r: seq<T>)
    requires TotalPreorder(le) && SortedBy(s, le)
    ensures |r| == |s| + 1
    ensures multiset(r) == multiset(s) + multiset{x}
    ensures SortedBy(r, le)
  {
    if s == [] then [x]
    else if le(x, s[0]) then [x] + s
    else
      var rest := Insert(x, s[1..], le);
      assert s == [s[0]] + s[1..];
      HeadBelowRest(x, s, le, rest);
      SortedCons(s[0], rest, le);
      [s[0]] + rest
  }

  /** When `x` goes after the head of `s`, the head comes before everything else. */
  lemma HeadBelowRest<T(!new)>(x: T, s: seq<T>, le: (T, T) -> bool, rest: seq<T>)
    requires TotalPreorder(le) && SortedBy(s, le) && s != [] && !le(x, s[0])
    requires multiset(rest) == multiset(s[1..]) + multiset{x}
    ensures forall k :: 0 <= k < |rest| ==> le(s[0], rest[k])
  {
    forall k | 0 <= k < |rest| ensures le(s[0], rest[k]) {
      assert rest[k] in multiset(rest);
      if rest[k] != x {
        assert rest[k] in multiset(s[1..]);
        var m :| 0 <= m < |s[1..]| && s[1..][m] == rest[k];
        assert s[m + 1] == rest[k];
      }
    }
  }

  /** A sorted sequence stays sorted under a head that comes before all of it. */
  lemma SortedCons<T>(a: T, rest: seq<T>, le: (T, T) -> bool)
    requires SortedBy(rest, le) && forall k :: 0 <= k < |rest| ==> le(a, rest[k])
    ensures SortedBy([a] + rest, le)
  {
    var r := [a] + rest;
    forall i, j | 0 <= i < j < |r| ensures le(r[i], r[j]) {
      assert r[j] == rest[j - 1];
      if i > 0 {
        assert r[i] == rest[i - 1];
      }
    }
  }

  /** A stable insertion sort: the result is a permutation of `s` ordered by `le`. */
  function SortBy<T(!new)>(s: seq<T>, le: (T, T) -> bool): (r: seq<T>)
    requires TotalPreorder(le)
    ensures |r| == |s|
    ensures multiset(r) == multiset(s)
    ensures SortedBy(r, le)
  {
    if s == [] then []
    else
      assert s == [s[0]] + s[1..];
      Insert(s[0], SortBy(s[1..], le), le)
  }

  /** Taking the head of a sorted permutation selects a best `n`: every item left out comes
      no earlier in the order than every item taken. */
  lemma HeadOfSorted<T>(s: seq<T>, sorted: seq<T>, le: (T, T) -> bool, n: int)
    requires multiset(sorted) == multiset(s) && SortedBy(sorted, le)
    ensures multiset(Head(sorted, n)) <= multiset(s)
    ensures forall x, y :: x in multiset(s) - multiset(Head(sorted, n)) && y in Head(sorted, n)
              ==> le(y, x)
  {
    var h := Head(sorted, n);
    var t := sorted[|h|..];
    assert sorted == h + t;
    forall x, y | x in multiset(s) - multiset(h) && y in h ensures le(y, x) {
      assert x in multiset(t);
      var j :| 0 <= j < |t| && t[j] == x;
      var i :| 0 <= i < |h| && h[i] == y;
      assert sorted[i] == y && sorted[|h| + j] == x;
    }
  }
}
