/** Sorting by a total order, as the standard sorts the sources call. What a
    sort returns is pinned down by two facts: it is sorted, and it holds the
    same elements; `SortedIsUnique` says there is only one such sequence. */
module Sorting {

  /** An order by some part of the elements: different ones may tie. */
  ghost predicate IsPreorder<T(!new)>(leq: (T, T) -> bool) {
    && (forall x, y :: leq(x, y) || leq(y, x))
    && (forall x, y, z :: leq(x, y) && leq(y, z) ==> leq(x, z))
  }

  ghost predicate IsTotalOrder<T(!new)>(leq: (T, T) -> bool) {
    IsPreorder(leq) && forall x, y :: leq(x, y) && leq(y, x) ==> x == y
  }

  ghost predicate InOrder<T>(s: seq<T>, leq: (T, T) -> bool) {
    forall i, j :: 0 <= i < j < |s| ==> leq(s[i], s[j])
  }

  function Insert<T>(x: T, s: seq<T>, leq: (T, T) -> bool): (r: seq<T>)
    ensures multiset(r) == multiset(s) + multiset{x}
  {
    if s == [] then [x]
    else if leq(x, s[0]) then [x] + s
    else
      assert s == [s[0]] + s[1..];
      [s[0]] + Insert(x, s[1..], leq)
  }

  function Sort<T>(s: seq<T>, leq: (T, T) -> bool): (r: seq<T>)
    ensures multiset(r) == multiset(s)
    ensures |r| == |s|
  {
    if s == [] then []
    else
      assert s == [s[0]] + s[1..];
      var r := Insert(s[0], Sort(s[1..], leq), leq);
      assert |multiset(r)| == |multiset(s)|;
      r
  }

  lemma {:induction false} InsertKeepsOrder<T(!new)>(x: T, s: seq<T>, leq: (T, T) -> bool)
    requires IsPreorder(leq) && InOrder(s, leq)
    ensures InOrder(Insert(x, s, leq), leq)
  {
    if s != [] && !leq(x, s[0]) {
      InsertKeepsOrder(x, s[1..], leq);
      var r := Insert(x, s[1..], leq);
      forall k | 0 <= k < |r| ensures leq(s[0], r[k]) {
        assert r[k] in multiset(r);
        assert r[k] == x || r[k] in s[1..];
      }
    }
  }

  lemma {:induction false} SortPutsInOrder<T(!new)>(s: seq<T>, leq: (T, T) -> bool)
    requires IsPreorder(leq)
    ensures InOrder(Sort(s, leq), leq)
  {
    if s != [] {
      SortPutsInOrder(s[1..], leq);
      InsertKeepsOrder(s[0], Sort(s[1..], leq), leq);
    }
  }

  /** A sorted sequence is determined by its elements. */
  lemma {:induction false} SortedIsUnique<T(!new)>(a: seq<T>, b: seq<T>, leq: (T, T) -> bool)
    requires IsTotalOrder(leq) && InOrder(a, leq) && InOrder(b, leq)
    requires multiset(a) == multiset(b)
    ensures a == b
  {
    SameLength(a, b);
    if a != [] {
      SameFirst(a, b, leq);
      RestCounts(a);
      RestCounts(b);
      SortedIsUnique(a[1..], b[1..], leq);
      assert a == [a[0]] + a[1..] && b == [b[0]] + b[1..];
    }
  }

  lemma SameLength<T>(a: seq<T>, b: seq<T>)
    requires multiset(a) == multiset(b)
    ensures |a| == |b|
  {
    assert |a| == |multiset(a)| && |b| == |multiset(b)|;
  }

  lemma SameFirst<T(!new)>(a: seq<T>, b: seq<T>, leq: (T, T) -> bool)
    requires IsTotalOrder(leq) && InOrder(a, leq) && InOrder(b, leq)
    requires multiset(a) == multiset(b) && a != [] && b != []
    ensures a[0] == b[0]
  {
    assert a[0] in multiset(b) && b[0] in multiset(a);
    var i :| 0 <= i < |b| && b[i] == a[0];
    var j :| 0 <= j < |a| && a[j] == b[0];
    assert i == 0 || leq(b[0], a[0]);
    assert j == 0 || leq(a[0], b[0]);
  }

  lemma RestCounts<T>(s: seq<T>)
    requires s != []
    ensures multiset(s[1..]) == multiset(s) - multiset{s[0]}
  {
    assert s == [s[0]] + s[1..];
  }

  // ----- numbers ----------------------------------------------------------

  predicate AtMost(a: int, b: int) { a <= b }

  ghost predicate Distinct<T>(s: seq<T>) {
    forall i, j :: 0 <= i < j < |s| ==> s[i] != s[j]
  }

  lemma DistinctJoined<T>(a: seq<T>, b: seq<T>)
    requires Distinct(a) && Distinct(b) && forall x :: x in a ==> x !in b
    ensures Distinct(a + b)
  {
    forall i, j | 0 <= i < j < |a + b| ensures (a + b)[i] != (a + b)[j] {
      if i < |a| <= j {
        assert (a + b)[i] in a && (a + b)[j] in b;
      }
    }
  }

  lemma {:induction false} DistinctOnce<T>(s: seq<T>)
    requires Distinct(s)
    ensures forall x :: multiset(s)[x] <= 1
  {
    if s != [] {
      DistinctOnce(s[1..]);
      assert s == [s[0]] + s[1..];
      assert s[0] !in s[1..];
      assert multiset(s) == multiset{s[0]} + multiset(s[1..]);
    }
  }

  lemma {:induction false} OnceDistinct<T>(s: seq<T>)
    requires forall x :: multiset(s)[x] <= 1
    ensures Distinct(s)
  {
    if s != [] {
      assert s == [s[0]] + s[1..];
      assert multiset(s) == multiset{s[0]} + multiset(s[1..]);
      forall x ensures multiset(s[1..])[x] <= 1 {
        assert multiset(s)[x] <= 1;
      }
      OnceDistinct(s[1..]);
      assert multiset(s)[s[0]] <= 1;
      assert s[0] !in s[1..];
    }
  }

  lemma SameElementsDistinct<T>(s: seq<T>, t: seq<T>)
    requires multiset(s) == multiset(t) && Distinct(s)
    ensures Distinct(t)
  {
    DistinctOnce(s);
    OnceDistinct(t);
  }

  lemma DistinctSameElements<T>(s: seq<T>, t: seq<T>)
    requires Distinct(s) && Distinct(t) && forall x :: x in s <==> x in t
    ensures multiset(s) == multiset(t)
  {
    DistinctOnce(s);
    DistinctOnce(t);
    forall x ensures multiset(s)[x] == multiset(t)[x] {
      assert x in multiset(s) <==> x in s;
      assert x in multiset(t) <==> x in t;
    }
  }

  lemma SortKeepsElements<T>(s: seq<T>, leq: (T, T) -> bool)
    ensures forall x :: x in Sort(s, leq) <==> x in s
    ensures Distinct(s) ==> Distinct(Sort(s, leq))
  {
    var r := Sort(s, leq);
    forall x ensures x in r <==> x in s {
      assert x in r <==> x in multiset(r);
      assert x in s <==> x in multiset(s);
    }
    if Distinct(s) { SameElementsDistinct(s, r); }
  }

  /** Distinct sequences over the same elements sort to the same sequence. */
  lemma SortSameElements(s: seq<int>, t: seq<int>)
    requires Distinct(s) && Distinct(t) && forall x :: x in s <==> x in t
    ensures Sort(s, AtMost) == Sort(t, AtMost)
  {
    DistinctSameElements(s, t);
    SortPutsInOrder(s, AtMost);
    SortPutsInOrder(t, AtMost);
    SortedIsUnique(Sort(s, AtMost), Sort(t, AtMost), AtMost);
  }

  /** In sorted numbers, comparing neighbours finds every repeat. */
  lemma NeighboursTellDistinct(s: seq<int>)
    requires InOrder(s, AtMost)
    ensures Distinct(s) <==> forall i :: 0 <= i < |s| - 1 ==> s[i] != s[i + 1]
  {
    if forall i :: 0 <= i < |s| - 1 ==> s[i] != s[i + 1] {
      forall i, j | 0 <= i < j < |s| ensures s[i] != s[j] {
        assert AtMost(s[i], s[i + 1]);
        assert i + 1 < j ==> AtMost(s[i + 1], s[j]);
      }
    }
  }

  // ----- strings, and the keys of maps ------------------------------------

  /** Element by element, a prefix first. */
  predicate Lexical<T(==)>(a: seq<T>, b: seq<T>, less: (T, T) -> bool) {
    a == [] || (b != [] && (less(a[0], b[0]) || (a[0] == b[0] && Lexical(a[1..], b[1..], less))))
  }

  ghost predicate IsStrictOrder<T(!new)>(less: (T, T) -> bool) {
    && (forall x, y :: x == y || less(x, y) || less(y, x))
    && (forall x, y :: less(x, y) ==> x != y && !less(y, x))
    && (forall x, y, z :: less(x, y) && less(y, z) ==> less(x, z))
  }

  lemma {:induction false} LexicalTotal<T(!new)>(a: seq<T>, b: seq<T>, less: (T, T) -> bool)
    requires IsStrictOrder(less)
    ensures Lexical(a, b, less) || Lexical(b, a, less)
    ensures Lexical(a, b, less) && Lexical(b, a, less) ==> a == b
  {
    if a != [] && b != [] {
      LexicalTotal(a[1..], b[1..], less);
      assert a == [a[0]] + a[1..] && b == [b[0]] + b[1..];
    }
  }

  lemma {:induction false} LexicalTransitive<T(!new)>(a: seq<T>, b: seq<T>, c: seq<T>, less: (T, T) -> bool)
    requires IsStrictOrder(less) && Lexical(a, b, less) && Lexical(b, c, less)
    ensures Lexical(a, c, less)
  {
    if a != [] && a[0] == b[0] == c[0] { LexicalTransitive(a[1..], b[1..], c[1..], less); }
  }

  /** `a` and `b` first differ at `d`. */
  ghost predicate FirstDiffer<T>(a: seq<T>, b: seq<T>, d: nat) {
    d < |a| && d < |b| && a[..d] == b[..d] && a[d] != b[d]
  }

  /** What the order says: where they first differ the lesser is first, and a prefix
      is before what it begins. */
  lemma {:induction false} LexicalSays<T(!new)>(a: seq<T>, b: seq<T>, less: (T, T) -> bool, d: nat)
    requires IsStrictOrder(less) && Lexical(a, b, less)
    ensures FirstDiffer(a, b, d) ==> less(a[d], b[d])
    ensures b <= a ==> a == b
    decreases |a|
  {
    if a != [] && b != [] && a[0] == b[0] {
      LexicalSays(a[1..], b[1..], less, if d > 0 then d - 1 else 0);
      assert a == [a[0]] + a[1..] && b == [b[0]] + b[1..];
      if d > 0 && d < |a| && d < |b| && a[..d] == b[..d] {
        assert a[1..][..d - 1] == a[..d][1..] && b[1..][..d - 1] == b[..d][1..];
      }
    }
  }

  /** A map's keys, in some order. */
  method KeysOf<K, V>(m: map<K, V>) returns (keys: seq<K>)
    ensures Distinct(keys) && forall k :: k in keys <==> k in m
  {
    keys := [];
    var left := m.Keys;
    while left != {}
      invariant Distinct(keys) && left <= m.Keys
      invariant forall k :: k in m <==> k in keys || k in left
      invariant forall k :: k in keys ==> k !in left
      decreases |left|
    {
      var k :| k in left;
      keys := keys + [k];
      left := left - {k};
    }
  }
}
