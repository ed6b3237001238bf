/** Python's `sorted` on a list of distinct elements, as an insertion sort over a
    strict order `lt`, together with the fact that such a list has exactly one
    sorted arrangement. */
module Sorting {

  /** `lt` is irreflexive, transitive and relates any two distinct values. */
  ghost predicate StrictTotalOrder<T(!new)>(lt: (T, T) -> bool) {
    && (forall a :: !lt(a, a))
    && (forall a, b, c :: lt(a, b) && lt(b, c) ==> lt(a, c))
    && (forall a, b :: a != b ==> lt(a, b) || lt(b, a))
  }

  predicate Distinct<T(==)>(s: seq<T>) {
    forall i, j :: 0 <= i < j < |s| ==> s[i] != s[j]
  }

  /** Every element comes strictly before every later one. */
  predicate StrictlySorted<T>(s: seq<T>, lt: (T, T) -> bool) {
    forall i, j :: 0 <= i < j < |s| ==> lt(s[i], s[j])
  }

  /** Places `x` after the leading elements that are smaller than it. */
  function Insert<T>(x: T, s: seq<T>, lt: (T, T) -> bool): (r: seq<T>)
    ensures multiset(r) == multiset(s) + multiset{x}
  {
    if |s| == 0 then [x]
    else if lt(s[0], x) then
      assert s == [s[0]] + s[1..];
      [s[0]] + Insert(x, s[1..], lt)
    else [x] + s
  }

  /** The sorted arrangement of `s`; it holds the same elements as `s`. */
  function Sort<T>(s: seq<T>, lt: (T, T) -> bool): (r: seq<T>)
    ensures multiset(r) == multiset(s)
  {
    if |s| == 0 then []
    else
      assert s == [s[0]] + s[1..];
      Insert(s[0], Sort(s[1..], lt), lt)
  }

  lemma {:induction false} InsertSorted<T(!new)>(x: T, s: seq<T>, lt: (T, T) -> bool)
    requires StrictTotalOrder(lt)
    requires StrictlySorted(s, lt)
    requires x !in s
    ensures StrictlySorted(Insert(x, s, lt), lt)
  {
    if |s| == 0 {
    } else if lt(s[0], x) {
      InsertSorted(x, s[1..], lt);
      var rest := Insert(x, s[1..], lt);
      assert multiset(rest) == multiset(s[1..]) + multiset{x};
      forall j | 0 <= j < |rest|
        ensures lt(s[0], rest[j])
      {
        assert rest[j] in multiset(rest);
        if rest[j] != x {
          assert rest[j] in multiset(s[1..]);
          var k :| 0 <= k < |s[1..]| && s[1..][k] == rest[j];
          assert s[k + 1] == rest[j];
        }
      }
    } else {
      assert s[0] != x;
      assert lt(x, s[0]);
      forall j | 0 <= j < |s|
        ensures lt(x, s[j])
      {
        if j > 0 {
          assert lt(s[0], s[j]);
        }
      }
    }
  }

  /** On distinct input, `Sort` yields a strictly ascending list. */
  lemma {:induction false} SortSorted<T(!new)>(s: seq<T>, lt: (T, T) -> bool)
    requires StrictTotalOrder(lt)
    requires Distinct(s)
    ensures StrictlySorted(Sort(s, lt), lt)
  {
    if |s| > 0 {
      SortSorted(s[1..], lt);
      var t := Sort(s[1..], lt);
      forall k | 0 <= k < |s[1..]|
        ensures s[1..][k] != s[0]
      {
        assert s[1..][k] == s[k + 1];
      }
      assert s[0] !in multiset(s[1..]);
      assert s[0] !in t;
      InsertSorted(s[0], t, lt);
    }
  }

  /** Two strictly sorted lists holding the same elements are the same list. */
  lemma {:induction false} SortedUnique<T(!new)>(a: seq<T>, b: seq<T>, lt: (T, T) -> bool)
    requires StrictTotalOrder(lt)
    requires StrictlySorted(a, lt) && StrictlySorted(b, lt)
    requires multiset(a) == multiset(b)
    ensures a == b
  {
    assert |b| == |multiset(b)| == |multiset(a)| == |a|;
    if |a| > 0 {
      SortedSameHead(a, b, lt);
      assert a == [a[0]] + a[1..];
      assert b == [b[0]] + b[1..];
      SortedUnique(a[1..], b[1..], lt);
    }
  }

  /** Non-empty strictly sorted lists with the same elements start alike, and
      what follows holds the same elements. */
  lemma SortedSameHead<T(!new)>(a: seq<T>, b: seq<T>, lt: (T, T) -> bool)
    requires StrictTotalOrder(lt)
    requires StrictlySorted(a, lt) && StrictlySorted(b, lt)
    requires multiset(a) == multiset(b)
    requires |a| > 0 && |b| > 0
    ensures a[0] == b[0]
    ensures multiset(a[1..]) == multiset(b[1..])
  {
    assert a[0] in multiset(b) && b[0] in multiset(a);
    var i :| 0 <= i < |b| && b[i] == a[0];
    var j :| 0 <= j < |a| && a[j] == b[0];
    assert a == [a[0]] + a[1..];
    assert b == [b[0]] + b[1..];
    assert multiset(a[1..]) == multiset(a) - multiset{a[0]};
    assert multiset(b[1..]) == multiset(b) - multiset{b[0]};
  }

  /** `Sort` returns THE strictly sorted arrangement of its input: whatever order the
      elements arrive in, the result is the one strictly sorted list holding them. */
  lemma SortIsSortedPermutation<T(!new)>(s: seq<T>, t: seq<T>, lt: (T, T) -> bool)
    requires StrictTotalOrder(lt)
    requires StrictlySorted(t, lt)
    requires multiset(s) == multiset(t)
    ensures Sort(s, lt) == t
  {
    SortedIsDistinct(t, lt);
    DistinctByMultiset(s, t);
    SortSorted(s, lt);
    SortedUnique(Sort(s, lt), t, lt);
  }

  lemma SortedIsDistinct<T(!new)>(t: seq<T>, lt: (T, T) -> bool)
    requires StrictTotalOrder(lt)
    requires StrictlySorted(t, lt)
    ensures Distinct(t)
  {
  }

  lemma {:induction false} DistinctByMultiset<T>(s: seq<T>, t: seq<T>)
    requires Distinct(t)
    requires multiset(s) == multiset(t)
    ensures Distinct(s)
  {
    if !Distinct(s) {
      var i, j :| 0 <= i < j < |s| && s[i] == s[j];
      assert s == s[..i] + [s[i]] + s[i+1..j] + [s[j]] + s[j+1..];
      assert multiset(s)[s[i]] >= 2;
      DistinctCount(t, s[i]);
      assert false;
    }
  }

  lemma {:induction false} DistinctCount<T>(t: seq<T>, x: T)
    requires Distinct(t)
    ensures multiset(t)[x] <= 1
  {
    if |t| > 0 {
      assert t == [t[0]] + t[1..];
      DistinctCount(t[1..], x);
      if t[0] == x {
        assert x !in t[1..];
      }
    }
  }
}
