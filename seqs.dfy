/** Sequence operations shared by the crawler, the seed loader and the ranking
    engine: order-preserving de-duplication (`Array.from(new Set(s))`),
    first-occurrence indices, filtering and a stable insertion sort. */
module Seqs {

  ghost predicate NoDuplicates<T>(s: seq<T>)
  {
    forall i, j :: 0 <= i < j < |s| ==> s[i] != s[j]
  }

  /** Index of the first occurrence of `x` in `s` (JavaScript `indexOf`). */
  function FirstIndex<T(==)>(s: seq<T>, x: T): (k: nat)
    requires x in s
    ensures k < |s| && s[k] == x && x !in s[..k]
  {
    if s[0] == x then 0
    else
      assert s[1..][..FirstIndex(s[1..], x)] == s[1..FirstIndex(s[1..], x) + 1];
      1 + FirstIndex(s[1..], x)
  }

  /** Every index where `x` occurs before any earlier `x` is the first index. */
  lemma FirstIndexUnique<T>(s: seq<T>, x: T, k: nat)
    requires k < |s| && s[k] == x && x !in s[..k]
    ensures FirstIndex(s, x) == k
  {
  }

  /** A first index stays the first index when the sequence grows at the end. */
  lemma FirstIndexPrefix<T>(s: seq<T>, n: nat, x: T)
    requires n <= |s| && x in s[..n]
    ensures x in s && FirstIndex(s, x) == FirstIndex(s[..n], x)
  {
    var k := FirstIndex(s[..n], x);
    assert s[..n][..k] == s[..k];
    FirstIndexUnique(s, x, k);
  }

  /** The elements of `s`, each once, in order of first occurrence. */
  function Distinct<T(==,!new)>(s: seq<T>): (d: seq<T>)
    ensures forall x :: x in d <==> x in s
    ensures NoDuplicates(d)
    ensures |d| <= |s|
    decreases |s|
  {
    if s == [] then []
    else
      var d := Distinct(s[..|s| - 1]);
      assert forall x :: x in s <==> x in s[..|s| - 1] || x == s[|s| - 1] by {
        assert s == s[..|s| - 1] + [s[|s| - 1]];
      }
      if s[|s| - 1] in d then d else d + [s[|s| - 1]]
  }

  /** One more element extends `Distinct` of a prefix by that element
      exactly when it is new. */
  lemma DistinctPrefixStep<T(!new)>(s: seq<T>, i: nat)
    requires i < |s|
    ensures Distinct(s[..i + 1]) == if s[i] in s[..i] then Distinct(s[..i]) else Distinct(s[..i]) + [s[i]]
  {
    assert s[..i + 1][..i] == s[..i];
  }

  /** `Distinct` lists elements in the order in which they first occur. */
  lemma {:induction false} DistinctOrder<T(!new)>(s: seq<T>, i: nat, j: nat)
    requires i < j < |Distinct(s)|
    ensures FirstIndex(s, Distinct(s)[i]) < FirstIndex(s, Distinct(s)[j])
    decreases |s|
  {
    var n := |s| - 1;
    var p := s[..n];
    assert s == p + [s[n]];
    var d := Distinct(p);
    if s[n] in d {
      DistinctOrder(p, i, j);
      FirstIndexPrefix(s, n, Distinct(s)[i]);
      FirstIndexPrefix(s, n, Distinct(s)[j]);
    } else if j < |d| {
      DistinctOrder(p, i, j);
      FirstIndexPrefix(s, n, Distinct(s)[i]);
      FirstIndexPrefix(s, n, Distinct(s)[j]);
    } else {
      assert Distinct(s)[j] == s[n] && s[n] !in p;
      FirstIndexUnique(s, s[n], n);
      FirstIndexPrefix(s, n, Distinct(s)[i]);
    }
  }

  /** The elements of `s` that satisfy `p`, in order (JavaScript `filter`). */
  function Filter<T(!new)>(s: seq<T>, p: T -> bool): (r: seq<T>)
    ensures |r| <= |s|
    ensures forall x :: x in r <==> x in s && p(x)
    ensures forall k :: 0 <= k < |r| ==> p(r[k])
    ensures multiset(r) <= multiset(s)
    decreases |s|
  {
    if s == [] then []
    else
      var last := s[|s| - 1];
      assert s == s[..|s| - 1] + [last];
      Filter(s[..|s| - 1], p) + (if p(last) then [last] else [])
  }

  /** `filter` keeps every occurrence of a kept element and none of the others. */
  lemma {:induction false} FilterCounts<T(!new)>(s: seq<T>, p: T -> bool, x: T)
    ensures multiset(Filter(s, p))[x] == if p(x) then multiset(s)[x] else 0
    decreases |s|
  {
    if s != [] {
      var init := s[..|s| - 1];
      assert s == init + [s[|s| - 1]];
      FilterCounts(init, p, x);
    }
  }

  /** Filtering a concatenation filters each part. */
  lemma {:induction false} FilterAppend<T(!new)>(a: seq<T>, b: seq<T>, p: T -> bool)
    ensures Filter(a + b, p) == Filter(a, p) + Filter(b, p)
    decreases |b|
  {
    if b == [] {
      assert a + b == a;
    } else {
      var init, last := b[..|b| - 1], b[|b| - 1];
      var tail := if p(last) then [last] else [];
      assert (a + b)[..|a + b| - 1] == a + init;
      assert (a + b)[|a + b| - 1] == last;
      assert Filter(a + b, p) == Filter(a + init, p) + tail;
      assert Filter(b, p) == Filter(init, p) + tail;
      FilterAppend(a, init, p);
      assert Filter(a + b, p) == Filter(a, p) + (Filter(init, p) + tail);
    }
  }

  lemma FilterOne<T(!new)>(x: T, p: T -> bool)
    ensures Filter([x], p) == if p(x) then [x] else []
  {
    assert [x][..0] == [];
  }

  lemma FilterCons<T(!new)>(x: T, s: seq<T>, p: T -> bool)
    ensures Filter([x] + s, p) == (if p(x) then [x] else []) + Filter(s, p)
  {
    FilterAppend([x], s, p);
    FilterOne(x, p);
  }

  /** Two elements of a filtered sequence, in order, come from two positions
      of the original, in the same order. */
  lemma {:induction false} FilterOrder<T(!new)>(s: seq<T>, p: T -> bool, i: nat, j: nat) returns (a: nat, b: nat)
    requires i < j < |Filter(s, p)|
    ensures a < b < |s| && s[a] == Filter(s, p)[i] && s[b] == Filter(s, p)[j]
    decreases |s|
  {
    var n := |s| - 1;
    var prefix := s[..n];
    assert s == prefix + [s[n]];
    var fp := Filter(prefix, p);
    if j < |fp| {
      a, b := FilterOrder(prefix, p, i, j);
    } else {
      assert Filter(s, p)[j] == s[n];
      assert Filter(s, p)[i] == fp[i];
      assert fp[i] in prefix;
      var k :| 0 <= k < |prefix| && prefix[k] == fp[i];
      a, b := k, n;
    }
  }

  /** Filtering keeps a sequence free of duplicates. */
  lemma FilterNoDuplicates<T(!new)>(s: seq<T>, p: T -> bool)
    requires NoDuplicates(s)
    ensures NoDuplicates(Filter(s, p))
  {
    var r := Filter(s, p);
    forall i, j | 0 <= i < j < |r| ensures r[i] != r[j] {
      var a, b := FilterOrder(s, p, i, j);
    }
  }

  /** `le` is a total preorder: every two elements compare, and transitively. */
  ghost predicate TotalPreorder<T(!new)>(le: (T, T) -> bool)
  {
    && (forall a, b :: le(a, b) || le(b, a))
    && (forall a, b, c :: le(a, b) && le(b, c) ==> le(a, c))
  }

  ghost predicate SortedBy<T>(s: seq<T>, le: (T, T) -> bool)
  {
    forall i, j :: 0 <= i < j < |s| ==> le(s[i], s[j])
  }

  /** Inserts `x` before the first element it precedes-or-equals. */
  function InsertBy<T>(x: T, s: seq<T>, le: (T, T) -> bool): (r: seq<T>)
    ensures multiset(r) == multiset(s) + multiset{x}
    ensures |r| == |s| + 1
  {
    if s == [] then [x]
    else if le(x, s[0]) then [x] + s
    else
      assert s == [s[0]] + s[1..];
      [s[0]] + InsertBy(x, s[1..], le)
  }

  /** Stable insertion sort: equal elements keep their relative order, as
      JavaScript's `Array.prototype.sort` guarantees. */
  function SortBy<T>(s: seq<T>, le: (T, T) -> bool): (r: seq<T>)
    ensures multiset(r) == multiset(s)
    ensures |r| == |s|
  {
    if s == [] then []
    else
      assert s == [s[0]] + s[1..];
      InsertBy(s[0], SortBy(s[1..], le), le)
  }

  lemma {:induction false} InsertBySorted<T(!new)>(x: T, s: seq<T>, le: (T, T) -> bool)
    requires TotalPreorder(le)
    requires SortedBy(s, le)
    ensures SortedBy(InsertBy(x, s, le), le)
  {
    if s != [] && !le(x, s[0]) {
      InsertBySorted(x, s[1..], le);
      var r := InsertBy(x, s, le);
      var t := InsertBy(x, s[1..], le);
      assert r == [s[0]] + t;
      forall j | 1 <= j < |r| ensures le(r[0], r[j]) {
        assert r[j] in multiset(t);
        assert r[j] in multiset(s[1..]) + multiset{x};
        if r[j] == x {
        } else {
          assert r[j] in s[1..];
          var k :| 0 <= k < |s[1..]| && s[1..][k] == r[j];
          assert s[k + 1] == r[j];
        }
      }
    }
  }

  /** The sort orders by `le` and is a permutation. */
  lemma {:induction false} SortBySorted<T(!new)>(s: seq<T>, le: (T, T) -> bool)
    requires TotalPreorder(le)
    ensures SortedBy(SortBy(s, le), le)
  {
    if s != [] {
      SortBySorted(s[1..], le);
      InsertBySorted(s[0], SortBy(s[1..], le), le);
    }
  }

  /** The elements `le` ranks equal to `e`. */
  function Equivalent<T>(le: (T, T) -> bool, e: T): T -> bool
  {
    x => le(x, e) && le(e, x)
  }

  /** `Filter`, taken apart from the front as the insertion sort is. */
  ghost function Keep<T>(s: seq<T>, p: T -> bool): seq<T>
  {
    if s == [] then [] else (if p(s[0]) then [s[0]] else []) + Keep(s[1..], p)
  }

  lemma {:induction false} KeepIsFilter<T(!new)>(s: seq<T>, p: T -> bool)
    ensures Keep(s, p) == Filter(s, p)
  {
    if s != [] {
      KeepIsFilter(s[1..], p);
      FilterCons(s[0], s[1..], p);
      assert [s[0]] + s[1..] == s;
      assert Keep(s, p) == (if p(s[0]) then [s[0]] else []) + Keep(s[1..], p);
    }
  }

  /** Inserting `x` puts it ahead of every `p`-element when `x` itself
      satisfies `p` and precedes-or-equals all of them. */
  lemma {:induction false} InsertByKeep<T>(x: T, s: seq<T>, le: (T, T) -> bool, p: T -> bool)
    requires p(x) ==> forall y :: p(y) ==> le(x, y)
    ensures p(x) ==> Keep(InsertBy(x, s, le), p) == [x] + Keep(s, p)
    ensures !p(x) ==> Keep(InsertBy(x, s, le), p) == Keep(s, p)
  {
    if s == [] {
      assert Keep([x], p) == (if p(x) then [x] else []) + Keep([], p);
    } else if le(x, s[0]) {
      assert ([x] + s)[1..] == s;
      assert ([x] + s)[0] == x;
    } else {
      var t := InsertBy(x, s[1..], le);
      InsertByKeep(x, s[1..], le, p);
      assert ([s[0]] + t)[1..] == t;
      assert Keep([s[0]] + t, p) == (if p(s[0]) then [s[0]] else []) + Keep(t, p);
      assert Keep(s, p) == (if p(s[0]) then [s[0]] else []) + Keep(s[1..], p);
      if p(x) {
        assert !p(s[0]);
        assert Keep(s, p) == Keep(s[1..], p);
        assert Keep(InsertBy(x, s, le), p) == Keep(t, p);
      }
    }
  }

  /** Elements that `le` orders both ways round come out of the sort in the
      order they went in. */
  lemma {:induction false} SortByKeep<T>(s: seq<T>, le: (T, T) -> bool, p: T -> bool)
    requires forall x, y :: p(x) && p(y) ==> le(x, y)
    ensures Keep(SortBy(s, le), p) == Keep(s, p)
  {
    if s != [] {
      SortByKeep(s[1..], le, p);
      InsertByKeep(s[0], SortBy(s[1..], le), le, p);
      assert Keep(s, p) == (if p(s[0]) then [s[0]] else []) + Keep(s[1..], p);
    }
  }

  /** The sort is stable: the elements ranked equal to any `e` come out in
      the order they went in. */
  lemma SortByStable<T(!new)>(s: seq<T>, le: (T, T) -> bool, e: T)
    requires TotalPreorder(le)
    ensures Filter(SortBy(s, le), Equivalent(le, e)) == Filter(s, Equivalent(le, e))
  {
    var p := Equivalent(le, e);
    forall x, y | p(x) && p(y) ensures le(x, y) {
      assert le(x, e) && le(e, y);
    }
    SortByKeep(s, le, p);
    KeepIsFilter(s, p);
    KeepIsFilter(SortBy(s, le), p);
  }

  /** `s.map(f)`. */
  function Map<A, B>(s: seq<A>, f: A -> B): (r: seq<B>)
    ensures |r| == |s| && forall k :: 0 <= k < |s| ==> r[k] == f(s[k])
  {
    seq(|s|, k requires 0 <= k < |s| => f(s[k]))
  }

  lemma MapCons<A, B>(x: A, s: seq<A>, f: A -> B)
    ensures Map([x] + s, f) == [f(x)] + Map(s, f)
  {
    assert forall k :: 0 <= k < |s| + 1 ==> Map([x] + s, f)[k] == ([f(x)] + Map(s, f))[k];
  }

  lemma {:induction false} InsertByMap<A, B>(x: A, s: seq<A>, le: (A, A) -> bool, f: A -> B)
    ensures multiset(Map(InsertBy(x, s, le), f)) == multiset(Map(s, f)) + multiset{f(x)}
  {
    if s == [] {
      assert Map([x], f) == [f(x)];
    } else if le(x, s[0]) {
      MapCons(x, s, f);
    } else {
      InsertByMap(x, s[1..], le, f);
      MapCons(s[0], InsertBy(x, s[1..], le), f);
      MapCons(s[0], s[1..], f);
      assert [s[0]] + s[1..] == s;
    }
  }

  /** Sorting and then mapping gives a permutation of mapping alone. */
  lemma {:induction false} SortByMap<A, B>(s: seq<A>, le: (A, A) -> bool, f: A -> B)
    ensures multiset(Map(SortBy(s, le), f)) == multiset(Map(s, f))
  {
    if s != [] {
      SortByMap(s[1..], le, f);
      InsertByMap(s[0], SortBy(s[1..], le), le, f);
      MapCons(s[0], s[1..], f);
      assert [s[0]] + s[1..] == s;
    }
  }

  /** The first `n` elements (SQL `LIMIT n`). */
  function Take<T>(s: seq<T>, n: nat): (r: seq<T>)
    ensures |r| == if n < |s| then n else |s|
    ensures r == s[..|r|]
  {
    if n < |s| then s[..n] else s
  }

  /** Some element satisfying `first` comes before some element satisfying
      `later`. */
  ghost predicate Precedes<T>(s: seq<T>, first: T -> bool, later: T -> bool)
  {
    exists i, j :: 0 <= i < j < |s| && first(s[i]) && later(s[j])
  }

  /** One of the first `n` elements satisfies `p` (the flag a left-to-right
      scan sets and never clears). */
  ghost function SeenWithin<T>(s: seq<T>, n: nat, p: T -> bool): bool
    requires n <= |s|
  {
    n > 0 && (SeenWithin(s, n - 1, p) || p(s[n - 1]))
  }

  /** A left-to-right scan of the first `n` elements met a `later` element
      while the `first` flag was already set. */
  ghost function MetAfter<T>(s: seq<T>, n: nat, first: T -> bool, later: T -> bool): bool
    requires n <= |s|
  {
    n > 0 && (MetAfter(s, n - 1, first, later) || (SeenWithin(s, n - 1, first) && later(s[n - 1])))
  }

  lemma {:induction false} SeenWithinIff<T>(s: seq<T>, n: nat, p: T -> bool)
    requires n <= |s|
    ensures SeenWithin(s, n, p) <==> exists k :: 0 <= k < n && p(s[k])
  {
    if n > 0 {
      SeenWithinIff(s, n - 1, p);
    }
  }

  lemma {:induction false} MetAfterMonotone<T>(s: seq<T>, m: nat, n: nat, first: T -> bool, later: T -> bool)
    requires m <= n <= |s|
    ensures MetAfter(s, m, first, later) ==> MetAfter(s, n, first, later)
    decreases n
  {
    if m < n {
      MetAfterMonotone(s, m, n - 1, first, later);
    }
  }

  /** The scan's two flags compute exactly `Precedes` on the scanned prefix. */
  lemma {:induction false} MetAfterIff<T>(s: seq<T>, n: nat, first: T -> bool, later: T -> bool)
    requires n <= |s|
    ensures MetAfter(s, n, first, later) <==> Precedes(s[..n], first, later)
  {
    if n > 0 {
      var p := s[..n];
      var q := s[..n - 1];
      MetAfterIff(s, n - 1, first, later);
      SeenWithinIff(s, n - 1, first);
      if Precedes(p, first, later) && !Precedes(q, first, later) {
        var a, b :| 0 <= a < b < |p| && first(p[a]) && later(p[b]);
        assert p[a] == s[a];
      }
      if SeenWithin(s, n - 1, first) && later(s[n - 1]) {
        var k :| 0 <= k < n - 1 && first(s[k]);
        assert first(p[k]) && later(p[n - 1]);
      }
      if Precedes(q, first, later) {
        var a, b :| 0 <= a < b < |q| && first(q[a]) && later(q[b]);
        assert first(p[a]) && later(p[b]);
      }
    }
  }

  /** A scan of the whole sequence decides `Precedes`. */
  lemma ScanDecidesPrecedes<T>(s: seq<T>, first: T -> bool, later: T -> bool)
    ensures MetAfter(s, |s|, first, later) <==> Precedes(s, first, later)
  {
    MetAfterIff(s, |s|, first, later);
    assert s[..|s|] == s;
  }
}
