/**
 * Array operations the site's code uses, over `seq`: `filter`, dropping nulls, the first
 * elements of a list, de-duplication through a `Set`, and `Array.prototype.sort`, which
 * ECMAScript requires to be stable, modelled as a stable insertion sort over a comparator
 * given as "a goes strictly before b".
 */
module Seqs {
  import opened Wrappers
  import opened Strings

  /** `s.filter(p)`: the elements satisfying `p`, in their original order. */
  function Filter<T>(s: seq<T>, p: T -> bool): (r: seq<T>)
    ensures |r| <= |s|
    ensures forall i :: 0 <= i < |r| ==> p(r[i])
  {
    if |s| == 0 then []
    else if p(s[0]) then [s[0]] + Filter(s[1..], p) else Filter(s[1..], p)
  }

  /**
   * The filter keeps exactly the elements satisfying `p`, each as often as it occurs, and
   * changes nothing when every element satisfies `p`.
   */
  lemma FilterMembers<T>(s: seq<T>, p: T -> bool)
    ensures forall i :: 0 <= i < |Filter(s, p)| ==> Filter(s, p)[i] in s
    ensures forall i :: 0 <= i < |s| && p(s[i]) ==> s[i] in Filter(s, p)
    ensures multiset(Filter(s, p)) <= multiset(s)
    ensures (forall i :: 0 <= i < |s| ==> p(s[i])) ==> Filter(s, p) == s
  {
    FilterSubMultiset(s, p);
    FilterKeeps(s, p);
    FilterAll(s, p);
    forall i | 0 <= i < |Filter(s, p)| ensures Filter(s, p)[i] in s {
      assert Filter(s, p)[i] in multiset(Filter(s, p));
    }
  }

  /** An element is kept exactly when it is in the list and passes the test. */
  lemma FilterIff<T>(s: seq<T>, p: T -> bool, x: T)
    ensures x in Filter(s, p) <==> x in s && p(x)
  {
    FilterMembers(s, p);
  }

  lemma {:induction false} FilterSubMultiset<T>(s: seq<T>, p: T -> bool)
    ensures multiset(Filter(s, p)) <= multiset(s)
  {
    if |s| > 0 {
      assert s == [s[0]] + s[1..];
      FilterSubMultiset(s[1..], p);
    }
  }

  lemma {:induction false} FilterKeeps<T>(s: seq<T>, p: T -> bool)
    ensures forall i :: 0 <= i < |s| && p(s[i]) ==> s[i] in Filter(s, p)
  {
    if |s| > 0 {
      FilterKeeps(s[1..], p);
      forall i | 1 <= i < |s| && p(s[i]) ensures s[i] in Filter(s, p) {
        assert s[1..][i - 1] == s[i];
      }
    }
  }

  lemma {:induction false} FilterAll<T>(s: seq<T>, p: T -> bool)
    ensures (forall i :: 0 <= i < |s| ==> p(s[i])) ==> Filter(s, p) == s
  {
    if |s| > 0 && forall i :: 0 <= i < |s| ==> p(s[i]) {
      assert forall i :: 0 <= i < |s[1..]| ==> s[1..][i] == s[i + 1];
      FilterAll(s[1..], p);
      assert s == [s[0]] + s[1..];
    }
  }

  lemma {:induction false} FilterConcat<T>(a: seq<T>, b: seq<T>, p: T -> bool)
    ensures Filter(a + b, p) == Filter(a, p) + Filter(b, p)
  {
    if |a| > 0 {
      assert (a + b)[1..] == a[1..] + b;
      FilterConcat(a[1..], b, p);
    } else {
      assert a + b == b;
    }
  }

  /** A filter result is empty exactly when no element satisfies the predicate. */
  lemma {:induction false} FilterEmpty<T>(s: seq<T>, p: T -> bool)
    ensures |Filter(s, p)| == 0 <==> forall i :: 0 <= i < |s| ==> !p(s[i])
  {
    if |s| > 0 {
      FilterEmpty(s[1..], p);
      assert forall i :: 1 <= i < |s| ==> s[i] == s[1..][i - 1];
    }
  }

  /** Filtering by a stronger predicate keeps a sub-multiset of filtering by a weaker one. */
  lemma {:induction false} FilterMonotone<T>(s: seq<T>, p: T -> bool, q: T -> bool)
    requires forall x :: p(x) ==> q(x)
    ensures multiset(Filter(s, p)) <= multiset(Filter(s, q))
  {
    if |s| > 0 {
      FilterMonotone(s[1..], p, q);
    }
  }

  /** `s.map(f)`. */
  function Map<A, B>(s: seq<A>, f: A -> B): (r: seq<B>)
    ensures |r| == |s| && forall i :: 0 <= i < |s| ==> r[i] == f(s[i])
  {
    seq(|s|, i requires 0 <= i < |s| => f(s[i]))
  }

  /** The image of a member is a member of the image. */
  lemma MapMember<A, B>(s: seq<A>, f: A -> B, x: A)
    requires x in s
    ensures f(x) in Map(s, f)
  {
    var i :| 0 <= i < |s| && s[i] == x;
    assert Map(s, f)[i] == f(x);
  }

  /** Filtering after a map is mapping after filtering by the composed predicate `q`. */
  lemma {:induction false} FilterMap<A, B>(s: seq<A>, f: A -> B, p: B -> bool, q: A -> bool)
    requires forall x :: q(x) == p(f(x))
    ensures Filter(Map(s, f), p) == Map(Filter(s, q), f)
  {
    if |s| > 0 {
      var ms := Map(s, f);
      assert ms[1..] == Map(s[1..], f);
      FilterMap(s[1..], f, p, q);
      var rest := Filter(s[1..], q);
      if q(s[0]) {
        assert Filter(ms, p) == [f(s[0])] + Map(rest, f);
        assert Filter(s, q) == [s[0]] + rest;
        assert Map([s[0]] + rest, f) == [f(s[0])] + Map(rest, f);
      } else {
        assert Filter(ms, p) == Map(rest, f);
        assert Filter(s, q) == rest;
      }
    }
  }

  /** Filters by predicates that agree everywhere agree. */
  lemma {:induction false} FilterExt<T>(s: seq<T>, p: T -> bool, q: T -> bool)
    requires forall x :: p(x) == q(x)
    ensures Filter(s, p) == Filter(s, q)
  {
    if |s| > 0 {
      FilterExt(s[1..], p, q);
    }
  }

  /** `s.flatMap(f)`: the lists `f` gives for the elements, concatenated in order. */
  function FlatMap<A, B>(s: seq<A>, f: A -> seq<B>): (r: seq<B>)
    decreases |s|
  {
    if |s| == 0 then [] else f(s[0]) + FlatMap(s[1..], f)
  }

  /** An element of a flat map comes from the list of some element, and every such element is in it. */
  lemma {:induction false} FlatMapMembers<A, B>(s: seq<A>, f: A -> seq<B>, y: B)
    ensures y in FlatMap(s, f) <==> exists i :: 0 <= i < |s| && y in f(s[i])
    decreases |s|
  {
    if |s| > 0 {
      FlatMapMembers(s[1..], f, y);
      if exists i :: 0 <= i < |s[1..]| && y in f(s[1..][i]) {
        var i :| 0 <= i < |s[1..]| && y in f(s[1..][i]);
        assert y in f(s[i + 1]);
      }
      if exists i :: 0 <= i < |s| && y in f(s[i]) {
        var i :| 0 <= i < |s| && y in f(s[i]);
        if i > 0 {
          assert s[1..][i - 1] == s[i];
        }
      }
    }
  }

  /** `filter(x => x !== null)` over a list of optional values. */
  function Somes<T>(s: seq<Option<T>>): (r: seq<T>)
    ensures |r| <= |s|
    ensures forall i :: 0 <= i < |r| ==> Some(r[i]) in s
    ensures forall i :: 0 <= i < |s| && s[i].Some? ==> s[i].value in r
  {
    if |s| == 0 then []
    else if s[0].Some? then [s[0].value] + Somes(s[1..])
    else Somes(s[1..])
  }

  /** A permutation of the present values holds only present values, and all of them. */
  lemma SomesPermutation<T>(s: seq<Option<T>>, r: seq<T>)
    requires multiset(r) == multiset(Somes(s))
    ensures forall i :: 0 <= i < |r| ==> exists j :: 0 <= j < |s| && s[j] == Some(r[i])
    ensures forall j :: 0 <= j < |s| && s[j].Some? ==> s[j].value in r
  {
    forall i | 0 <= i < |r| ensures exists j :: 0 <= j < |s| && s[j] == Some(r[i]) {
      assert r[i] in multiset(Somes(s));
      assert Some(r[i]) in s;
    }
    forall j | 0 <= j < |s| && s[j].Some? ensures s[j].value in r {
      assert s[j].value in Somes(s);
      assert s[j].value in multiset(r);
    }
  }

  /** `s.slice(0, n)`. */
  function Take<T>(s: seq<T>, n: nat): (r: seq<T>)
    ensures |r| == if n < |s| then n else |s|
    ensures r == s[..|r|]
  {
    if n < |s| then s[..n] else s
  }

  predicate Distinct<T(==)>(s: seq<T>) {
    forall i, j :: 0 <= i < j < |s| ==> s[i] != s[j]
  }

  /** An element occurring at two positions occurs at least twice. */
  lemma CountTwo<T>(r: seq<T>, i: nat, j: nat)
    requires i < j < |r| && r[i] == r[j]
    ensures multiset(r)[r[i]] >= 2
  {
    assert r == r[..j] + r[j..];
    assert r[i] in r[..j];
    assert r[j] in r[j..];
  }

  lemma {:induction false} DistinctCount<T>(s: seq<T>, x: T)
    requires Distinct(s)
    ensures multiset(s)[x] <= 1
  {
    if |s| > 0 {
      assert s == [s[0]] + s[1..];
      assert Distinct(s[1..]) by {
        forall i, j | 0 <= i < j < |s[1..]| ensures s[1..][i] != s[1..][j] {
          assert s[1..][i] == s[i + 1] && s[1..][j] == s[j + 1];
        }
      }
      DistinctCount(s[1..], x);
      if x == s[0] {
        assert x !in s[1..] by {
          forall k | 0 <= k < |s[1..]| ensures s[1..][k] != x {
            assert s[1..][k] == s[k + 1];
          }
        }
      }
    }
  }

  /** A permutation of a duplicate-free list is duplicate-free. */
  lemma DistinctPermutation<T>(s: seq<T>, r: seq<T>)
    requires Distinct(s) && multiset(r) == multiset(s)
    ensures Distinct(r)
  {
    forall i, j | 0 <= i < j < |r| ensures r[i] != r[j] {
      if r[i] == r[j] {
        CountTwo(r, i, j);
        DistinctCount(s, r[i]);
      }
    }
  }

  /** `Array.from(new Set(s))`: the first occurrence of each element, in order. */
  function Dedupe<T(==)>(s: seq<T>): (r: seq<T>)
    ensures Distinct(r)
    ensures forall i :: 0 <= i < |r| ==> r[i] in s
    ensures forall i :: 0 <= i < |s| ==> s[i] in r
    decreases |s|
  {
    if |s| == 0 then []
    else
      var other := Other(s[0]);
      var kept := Filter(s[1..], other);
      FilterMembers(s[1..], other);
      var rest := Dedupe(kept);
      DedupeCons(s, kept, rest);
      [s[0]] + rest
  }

  /** The test `x => x != y` that drops `y`. */
  function Other<T(==)>(y: T): T -> bool {
    x => x != y
  }

  /** A list without duplicates is its own de-duplication. */
  lemma {:induction false} DedupeOfDistinct<T>(s: seq<T>)
    requires Distinct(s)
    ensures Dedupe(s) == s
    decreases |s|
  {
    if |s| > 0 {
      var tail := s[1..];
      forall i | 0 <= i < |tail|
        ensures Other(s[0])(tail[i])
      {
        assert tail[i] == s[i + 1];
      }
      FilterAll(tail, Other(s[0]));
      forall i, j | 0 <= i < j < |tail|
        ensures tail[i] != tail[j]
      {
        assert tail[i] == s[i + 1] && tail[j] == s[j + 1];
      }
      DedupeOfDistinct(tail);
      assert Dedupe(s) == [s[0]] + Dedupe(Filter(tail, Other(s[0])));
      assert s == [s[0]] + tail;
    }
  }

  /**
   * De-duplication keeps first occurrences in order: a new last element is appended, and
   * one already present adds nothing.
   */
  lemma {:induction false} DedupeSnoc<T>(s: seq<T>, x: T)
    ensures Dedupe(s + [x]) == Dedupe(s) + (if x in s then [] else [x])
    decreases |s|
  {
    if |s| == 0 {
      assert Dedupe([x]) == [x] + Dedupe(Filter([x][1..], Other(x)));
    } else {
      var other := Other(s[0]);
      var kept := Filter(s[1..], other);
      assert (s + [x])[0] == s[0] && (s + [x])[1..] == s[1..] + [x];
      FilterConcat(s[1..], [x], other);
      FilterIff(s[1..], other, x);
      if x == s[0] {
        assert Filter([x], other) == [];
        assert Filter(s[1..] + [x], other) == kept;
      } else {
        assert Filter([x], other) == [x];
        assert Filter(s[1..] + [x], other) == kept + [x];
        DedupeSnoc(kept, x);
        assert x in s <==> x in s[1..];
      }
    }
  }

  /** The step of `Dedupe`: the first element, then the de-duplicated rest without it. */
  lemma DedupeCons<T>(s: seq<T>, kept: seq<T>, rest: seq<T>)
    requires |s| > 0
    requires forall i :: 0 <= i < |kept| ==> kept[i] != s[0] && kept[i] in s[1..]
    requires forall i :: 1 <= i < |s| && s[i] != s[0] ==> s[i] in kept
    requires Distinct(rest)
    requires forall i :: 0 <= i < |rest| ==> rest[i] in kept
    requires forall i :: 0 <= i < |kept| ==> kept[i] in rest
    ensures Distinct([s[0]] + rest)
    ensures forall i :: 0 <= i < |[s[0]] + rest| ==> ([s[0]] + rest)[i] in s
    ensures forall i :: 0 <= i < |s| ==> s[i] in [s[0]] + rest
  {
    var r := [s[0]] + rest;
    forall i | 0 <= i < |r| ensures r[i] in s {
      if i > 0 {
        assert r[i] == rest[i - 1] && rest[i - 1] in kept;
      }
    }
    forall i | 0 <= i < |s| ensures s[i] in r {
      if i > 0 && s[i] != s[0] {
        assert s[i] in kept;
      }
    }
    forall i, j | 0 <= i < j < |r| ensures r[i] != r[j] {
      assert r[j] == rest[j - 1] && rest[j - 1] in kept;
      if i > 0 {
        assert r[i] == rest[i - 1];
      }
    }
  }

  // ---------------------------------------------------------------------------------------
  // Sorting

  /**
   * `lt(a, b)` says that a comparator puts `a` strictly before `b`. A comparator that
   * `sort` can use consistently is a strict weak order: asymmetric, and "not before" is
   * transitive.
   */
  ghost predicate StrictWeakOrder<T(!new)>(lt: (T, T) -> bool) {
    && (forall a, b :: lt(a, b) ==> !lt(b, a))
    && (forall a, b, c :: !lt(a, b) && !lt(b, c) ==> !lt(a, c))
  }

  /** The comparator neither puts `a` before `b` nor `b` before `a`. */
  predicate Tied<T>(lt: (T, T) -> bool, a: T, b: T) {
    !lt(a, b) && !lt(b, a)
  }

  /** No element is put strictly before an element to its left. */
  ghost predicate Sorted<T>(s: seq<T>, lt: (T, T) -> bool) {
    forall i, j :: 0 <= i < j < |s| ==> !lt(s[j], s[i])
  }

  /** Inserts `x` before the first element that does not go strictly before it. */
  function Insert<T>(x: T, s: seq<T>, lt: (T, T) -> bool): (r: seq<T>)
    ensures |r| == |s| + 1
  {
    if |s| == 0 then [x]
    else if lt(s[0], x) then [s[0]] + Insert(x, s[1..], lt) else [x] + s
  }

  lemma {:induction false} InsertPermutation<T>(x: T, s: seq<T>, lt: (T, T) -> bool)
    ensures multiset(Insert(x, s, lt)) == multiset(s) + multiset{x}
  {
    if |s| > 0 {
      assert s == [s[0]] + s[1..];
      InsertPermutation(x, s[1..], lt);
    }
  }

  /** The stable sort `Array.prototype.sort` performs with comparator `lt`. */
  function SortBy<T>(s: seq<T>, lt: (T, T) -> bool): (r: seq<T>)
    ensures |r| == |s|
  {
    if |s| == 0 then []
    else Insert(s[0], SortBy(s[1..], lt), lt)
  }

  /** Sorting neither adds nor drops nor duplicates an element. */
  lemma {:induction false} SortByPermutation<T>(s: seq<T>, lt: (T, T) -> bool)
    ensures multiset(SortBy(s, lt)) == multiset(s)
  {
    if |s| > 0 {
      assert s == [s[0]] + s[1..];
      SortByPermutation(s[1..], lt);
      InsertPermutation(s[0], SortBy(s[1..], lt), lt);
    }
  }

  /**
   * `a.sort(cmp)` in place: an insertion sort from the right end, which produces exactly
   * the stable sort `SortBy`.
   */
  method SortInPlace<T>(a: array<T>, lt: (T, T) -> bool)
    modifies a
    ensures a[..] == SortBy(old(a[..]), lt)
  {
    ghost var s := a[..];
    var i := a.Length;
    while i > 0
      invariant 0 <= i <= a.Length
      invariant a[..] == s[..i] + SortBy(s[i..], lt)
    {
      i := i - 1;
      assert s[i..][1..] == s[i + 1..];
      assert s[..i + 1] == s[..i] + [s[i]];
      InsertAt(a, i, lt);
    }
    assert s == s[0..];
  }

  /** Moves `a[i]` into the sorted slice after it, at the place `Insert` puts it. */
  method InsertAt<T>(a: array<T>, i: nat, lt: (T, T) -> bool)
    requires i < a.Length
    modifies a
    ensures a[..] == old(a[..i]) + Insert(old(a[i]), old(a[i + 1..]), lt)
  {
    var n := Slot(a, i, lt);
    Rotate(a, i, n);
  }

  /** How many elements after `a[i]` go strictly before it: `Insert` puts it after them. */
  method Slot<T>(a: array<T>, i: nat, lt: (T, T) -> bool) returns (n: nat)
    requires i < a.Length
    ensures i + 1 + n <= a.Length
    ensures Insert(a[i], a[i + 1..], lt) == a[i + 1..][..n] + ([a[i]] + a[i + 1..][n..])
  {
    var x := a[i];
    ghost var t := a[i + 1..];
    n := 0;
    while i + 1 + n < a.Length && lt(a[i + 1 + n], x)
      invariant i + 1 + n <= a.Length
      invariant Insert(x, t, lt) == t[..n] + Insert(x, t[n..], lt)
    {
      InsertStep(x, t, n, lt);
      n := n + 1;
    }
    InsertStop(x, t, n, lt);
  }

  /** Shifts the `n` elements after `a[i]` one place to the left and puts `a[i]` after them. */
  method Rotate<T>(a: array<T>, i: nat, n: nat)
    requires i + 1 + n <= a.Length
    modifies a
    ensures a[..] == old(a[..i]) + (old(a[i + 1..])[..n] + ([old(a[i])] + old(a[i + 1..])[n..]))
  {
    var x := a[i];
    ghost var b := a[..];
    forall k | i <= k < i + n {
      a[k] := a[k + 1];
    }
    a[i + n] := x;
    Rotated(a[..], b, i, n);
  }

  /** The array after `Rotate`, element by element, is the rotation of its old contents. */
  lemma Rotated<T>(cur: seq<T>, b: seq<T>, i: nat, n: nat)
    requires i + 1 + n <= |b| == |cur|
    requires forall m :: 0 <= m < i ==> cur[m] == b[m]
    requires forall m :: i <= m < i + n ==> cur[m] == b[m + 1]
    requires cur[i + n] == b[i]
    requires forall m :: i + n < m < |cur| ==> cur[m] == b[m]
    ensures cur == b[..i] + (b[i + 1..][..n] + ([b[i]] + b[i + 1..][n..]))
  {
  }

  lemma InsertStep<T>(x: T, t: seq<T>, k: nat, lt: (T, T) -> bool)
    requires k < |t| && lt(t[k], x)
    requires Insert(x, t, lt) == t[..k] + Insert(x, t[k..], lt)
    ensures Insert(x, t, lt) == t[..k + 1] + Insert(x, t[k + 1..], lt)
  {
    assert t[k..][1..] == t[k + 1..];
    assert t[..k + 1] == t[..k] + [t[k]];
  }

  lemma InsertStop<T>(x: T, t: seq<T>, k: nat, lt: (T, T) -> bool)
    requires k <= |t| && (k == |t| || !lt(t[k], x))
    ensures Insert(x, t[k..], lt) == [x] + t[k..]
  {
  }

  /** Keeping some elements of a sorted list leaves it sorted. */
  lemma {:induction false} FilterSorted<T>(s: seq<T>, p: T -> bool, lt: (T, T) -> bool)
    requires Sorted(s, lt)
    ensures Sorted(Filter(s, p), lt)
  {
    if |s| > 0 {
      assert Sorted(s[1..], lt) by {
        forall i, j | 0 <= i < j < |s[1..]| ensures !lt(s[1..][j], s[1..][i]) {
          assert s[1..][j] == s[j + 1] && s[1..][i] == s[i + 1];
        }
      }
      FilterSorted(s[1..], p, lt);
      FilterMembers(s[1..], p);
      var rest := Filter(s[1..], p);
      if p(s[0]) {
        var r := Filter(s, p);
        assert r == [s[0]] + rest;
        forall j | 0 < j < |r| ensures !lt(r[j], s[0]) {
          assert r[j] == rest[j - 1];
          assert rest[j - 1] in s[1..];
          var k :| 0 <= k < |s[1..]| && s[1..][k] == rest[j - 1];
          assert s[k + 1] == r[j];
        }
      }
    }
  }

  lemma {:induction false} InsertSorted<T(!new)>(x: T, s: seq<T>, lt: (T, T) -> bool)
    requires StrictWeakOrder(lt)
    requires Sorted(s, lt)
    ensures Sorted(Insert(x, s, lt), lt)
  {
    if |s| > 0 {
      if lt(s[0], x) {
        assert Sorted(s[1..], lt) by {
          forall i, j | 0 <= i < j < |s[1..]| ensures !lt(s[1..][j], s[1..][i]) {
            assert s[1..][j] == s[j + 1] && s[1..][i] == s[i + 1];
          }
        }
        InsertSorted(x, s[1..], lt);
        var rest := Insert(x, s[1..], lt);
        InsertPermutation(x, s[1..], lt);
        var r := Insert(x, s, lt);
        assert r == [s[0]] + rest;
        forall j | 0 < j < |r| ensures !lt(r[j], s[0]) {
          assert r[j] in multiset(rest);
          assert r[j] in multiset(s[1..]) + multiset{x};
          if r[j] != x {
            assert r[j] in s[1..];
            var k :| 0 <= k < |s[1..]| && s[1..][k] == r[j];
            assert s[k + 1] == r[j];
          }
        }
      } else {
        var r := Insert(x, s, lt);
        assert r == [x] + s;
        forall j | 0 < j < |r| ensures !lt(r[j], x) {
          assert r[j] == s[j - 1];
          if j > 1 {
            assert !lt(s[j - 1], s[0]);
          }
        }
      }
    }
  }

  /** The sort's output is sorted by its comparator. */
  lemma {:induction false} SortBySorted<T(!new)>(s: seq<T>, lt: (T, T) -> bool)
    requires StrictWeakOrder(lt)
    ensures Sorted(SortBy(s, lt), lt)
  {
    if |s| > 0 {
      SortBySorted(s[1..], lt);
      InsertSorted(s[0], SortBy(s[1..], lt), lt);
    }
  }

  /** The elements tied with `e` under `lt`, in order. */
  function TiedWith<T>(s: seq<T>, lt: (T, T) -> bool, e: T): seq<T> {
    Filter(s, x => Tied(lt, x, e))
  }

  lemma {:induction false} InsertStable<T(!new)>(x: T, s: seq<T>, lt: (T, T) -> bool, e: T)
    requires StrictWeakOrder(lt)
    ensures TiedWith(Insert(x, s, lt), lt, e)
         == (if Tied(lt, x, e) then [x] else []) + TiedWith(s, lt, e)
  {
    var p := y => Tied(lt, y, e);
    if |s| > 0 {
      if lt(s[0], x) {
        InsertStable(x, s[1..], lt, e);
        assert Insert(x, s, lt) == [s[0]] + Insert(x, s[1..], lt);
        assert Tied(lt, x, e) ==> !Tied(lt, s[0], e);
      } else {
        assert Insert(x, s, lt) == [x] + s;
      }
    }
  }

  /**
   * The sort is stable: the elements of each class of tied elements keep their input order.
   * With sortedness and the multiset equality this determines the output completely.
   */
  lemma {:induction false} SortByStable<T(!new)>(s: seq<T>, lt: (T, T) -> bool, e: T)
    requires StrictWeakOrder(lt)
    ensures TiedWith(SortBy(s, lt), lt, e) == TiedWith(s, lt, e)
  {
    if |s| > 0 {
      SortByStable(s[1..], lt, e);
      InsertStable(s[0], SortBy(s[1..], lt), lt, e);
      assert s == [s[0]] + s[1..];
      FilterConcat([s[0]], s[1..], x => Tied(lt, x, e));
    }
  }

  /** Sorting a list that is already sorted changes nothing. */
  lemma {:induction false} SortBySortedIsIdentity<T>(s: seq<T>, lt: (T, T) -> bool)
    requires Sorted(s, lt)
    ensures SortBy(s, lt) == s
  {
    if |s| > 0 {
      assert Sorted(s[1..], lt) by {
        forall i, j | 0 <= i < j < |s[1..]| ensures !lt(s[1..][j], s[1..][i]) {
          assert s[1..][j] == s[j + 1] && s[1..][i] == s[i + 1];
        }
      }
      SortBySortedIsIdentity(s[1..], lt);
      if |s| > 1 {
        assert !lt(s[1], s[0]);
        assert s[1..][0] == s[1];
      }
      assert [s[0]] + s[1..] == s;
    }
  }

  /** The comparator `(a, b) => key(b) - key(a)`: larger keys first. */
  function ByKeyDescending<T(!new)>(key: T -> int): (lt: (T, T) -> bool)
    ensures forall a, b :: lt(a, b) == (key(a) > key(b))
  {
    (a, b) => key(a) > key(b)
  }

  /** The comparator `(a, b) => key(a) - key(b)`: smaller keys first. */
  function ByKeyAscending<T(!new)>(key: T -> int): (lt: (T, T) -> bool)
    ensures forall a, b :: lt(a, b) == (key(a) < key(b))
  {
    (a, b) => key(a) < key(b)
  }

  lemma KeyOrdersAreStrictWeak<T(!new)>(key: T -> int)
    ensures StrictWeakOrder(ByKeyDescending(key))
    ensures StrictWeakOrder(ByKeyAscending(key))
  {
  }

  /** The comparator `(a, b) => key(a) < key(b) ? -1 : ...` on a string key: code-unit order. */
  function ByStringKey<T(!new)>(key: T -> string): (lt: (T, T) -> bool)
    ensures forall a, b :: lt(a, b) == StrLess(key(a), key(b))
  {
    (a, b) => StrLess(key(a), key(b))
  }

  lemma StringKeyOrderIsStrictWeak<T(!new)>(key: T -> string)
    ensures StrictWeakOrder(ByStringKey(key))
  {
    var lt := ByStringKey(key);
    forall a, b | lt(a, b) ensures !lt(b, a) {
      StrLessStrictTotal(key(a), key(b), key(a));
    }
    forall a, b, c | !lt(a, b) && !lt(b, c) ensures !lt(a, c) {
      StrLessStrictTotal(key(a), key(b), key(c));
      StrLessStrictTotal(key(b), key(c), key(a));
      StrLessStrictTotal(key(c), key(b), key(a));
      StrLessStrictTotal(key(a), key(c), key(b));
    }
  }
}
