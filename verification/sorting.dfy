/**
  The list sort used by the index (Collections.sort): an insertion sort
  driven by a java.util.Comparator-style function, specified as a sorted
  permutation of its input.
*/
module Sorting {

  /** cmp can be applied to, and behaves as a comparator on, the elements of s:
      its sign is antisymmetric and "not greater" is transitive, so it is a
      total preorder there. */
  ghost predicate ComparatorOn<X>(cmp: (X, X) --> int, s: seq<X>) {
    && DefinedOn(cmp, s)
    && (forall a, b {:trigger cmp(a, b)} :: a in s && b in s ==> (cmp(a, b) < 0 <==> cmp(b, a) > 0))
    && (forall a, b, c {:trigger cmp(a, b), cmp(b, c)} ::
          a in s && b in s && c in s && cmp(a, b) <= 0 && cmp(b, c) <= 0 ==> cmp(a, c) <= 0)
  }

  /** cmp can be applied to any two elements of s. */
  ghost predicate DefinedOn<X>(cmp: (X, X) --> int, s: seq<X>) {
    forall a, b :: a in s && b in s ==> cmp.requires(a, b)
  }

  /** No element compares greater than a later one. */
  ghost predicate SortedBy<X>(cmp: (X, X) --> int, s: seq<X>) {
    forall i, j :: 0 <= i < j < |s| ==> cmp.requires(s[i], s[j]) && cmp(s[i], s[j]) <= 0
  }

  lemma ComparatorOnSubset<X>(cmp: (X, X) --> int, s: seq<X>, t: seq<X>)
    requires ComparatorOn(cmp, s)
    requires forall a :: a in t ==> a in s
    ensures ComparatorOn(cmp, t)
  {
  }

  lemma DefinedAt<X>(cmp: (X, X) --> int, s: seq<X>, i: nat, j: nat)
    requires DefinedOn(cmp, s)
    requires i < |s| && j < |s|
    ensures cmp.requires(s[i], s[j])
  {
    assert s[i] in s && s[j] in s;
  }

  lemma TransitiveAt<X>(cmp: (X, X) --> int, s: seq<X>, i: nat, j: nat, k: nat)
    requires ComparatorOn(cmp, s)
    requires i < |s| && j < |s| && k < |s|
    requires cmp.requires(s[i], s[j]) && cmp(s[i], s[j]) <= 0
    requires cmp.requires(s[j], s[k]) && cmp(s[j], s[k]) <= 0
    ensures cmp.requires(s[i], s[k]) && cmp(s[i], s[k]) <= 0
  {
    assert s[i] in s && s[j] in s && s[k] in s;
  }

  lemma InsertFrontPair<X>(cmp: (X, X) --> int, x: X, s: seq<X>, i: nat, j: nat)
    requires ComparatorOn(cmp, [x] + s)
    requires SortedBy(cmp, s)
    requires s != [] && cmp(x, s[0]) < 0
    requires i < j < |s| + 1
    ensures cmp.requires(([x] + s)[i], ([x] + s)[j]) && cmp(([x] + s)[i], ([x] + s)[j]) <= 0
  {
    var r := [x] + s;
    DefinedAt(cmp, r, i, j);
    if i == 0 {
      assert r[0] == x && r[1] == s[0];
      if j > 1 {
        assert r[j] == s[j - 1];
        TransitiveAt(cmp, r, 0, 1, j);
      }
    } else {
      assert r[i] == s[i - 1] && r[j] == s[j - 1];
    }
  }

  lemma InsertFrontSorted<X>(cmp: (X, X) --> int, x: X, s: seq<X>)
    requires ComparatorOn(cmp, [x] + s)
    requires SortedBy(cmp, s)
    requires s != [] && cmp(x, s[0]) < 0
    ensures SortedBy(cmp, [x] + s)
  {
    forall i, j | 0 <= i < j < |s| + 1 ensures cmp.requires(([x] + s)[i], ([x] + s)[j]) && cmp(([x] + s)[i], ([x] + s)[j]) <= 0 {
      InsertFrontPair(cmp, x, s, i, j);
    }
  }

  lemma InsertConsSorted<X>(cmp: (X, X) --> int, x: X, s: seq<X>, rest: seq<X>)
    requires DefinedOn(cmp, [x] + s)
    requires SortedBy(cmp, s)
    requires s != [] && cmp(s[0], x) <= 0
    requires multiset(rest) == multiset(s[1..]) + multiset{x}
    requires SortedBy(cmp, rest)
    ensures SortedBy(cmp, [s[0]] + rest)
    ensures multiset([s[0]] + rest) == multiset(s) + multiset{x}
  {
    var r := [s[0]] + rest;
    assert s == [s[0]] + s[1..];
    forall i, j | 0 <= i < j < |r| ensures cmp.requires(r[i], r[j]) && cmp(r[i], r[j]) <= 0 {
      assert r[j] == rest[j - 1];
      assert rest[j - 1] in multiset(rest);
      if i == 0 {
        if rest[j - 1] != x {
          assert rest[j - 1] in s[1..];
          var k :| 0 <= k < |s[1..]| && s[1..][k] == rest[j - 1];
          assert s[k + 1] == rest[j - 1];
        }
      } else {
        assert r[i] == rest[i - 1];
      }
    }
  }

  /** What the recursive step of Insert needs about the tail of s. */
  lemma InsertStep<X>(cmp: (X, X) --> int, x: X, s: seq<X>)
    requires ComparatorOn(cmp, [x] + s)
    requires SortedBy(cmp, s)
    requires s != []
    ensures cmp.requires(x, s[0])
    ensures ComparatorOn(cmp, [x] + s[1..])
    ensures SortedBy(cmp, s[1..])
  {
    assert s[0] in [x] + s && x in [x] + s;
    ComparatorOnSubset(cmp, [x] + s, [x] + s[1..]);
    var t := s[1..];
    forall i, j | 0 <= i < j < |t| ensures cmp.requires(t[i], t[j]) && cmp(t[i], t[j]) <= 0 {
      assert t[i] == s[i + 1] && t[j] == s[j + 1];
    }
  }

  /** Inserts x after every element that does not compare greater than it. */
  function Insert<X>(cmp: (X, X) --> int, x: X, s: seq<X>): (r: seq<X>)
    requires ComparatorOn(cmp, [x] + s)
    requires SortedBy(cmp, s)
    ensures multiset(r) == multiset(s) + multiset{x}
    ensures SortedBy(cmp, r)
  {
    if s == [] then [x]
    else
      InsertStep(cmp, x, s);
      if cmp(x, s[0]) < 0 then
        InsertFrontSorted(cmp, x, s);
        [x] + s
      else
        var rest := Insert(cmp, x, s[1..]);
        InsertConsSorted(cmp, x, s, rest);
        [s[0]] + rest
  }

  /** Collections.sort: a sorted permutation of s. */
  function InsertionSort<X>(cmp: (X, X) --> int, s: seq<X>): (r: seq<X>)
    requires ComparatorOn(cmp, s)
    ensures multiset(r) == multiset(s)
    ensures SortedBy(cmp, r)
  {
    if s == [] then []
    else
      var init := s[..|s| - 1];
      assert s == init + [s[|s| - 1]];
      ComparatorOnSubset(cmp, s, init);
      var sorted := InsertionSort(cmp, init);
      assert forall e :: e in sorted ==> e in multiset(init);
      ComparatorOnSubset(cmp, s, [s[|s| - 1]] + sorted);
      Insert(cmp, s[|s| - 1], sorted)
  }

  /** Natural-number order as a comparator (Integer.compareTo up to sign). */
  function NatOrder(a: nat, b: nat): int {
    a - b
  }

  lemma NatOrderIsComparator(s: seq<nat>)
    ensures ComparatorOn(NatOrder, s)
  {
  }

  /** Collections.sort on a list of Integer indexes: the ascending permutation. */
  function SortNats(s: seq<nat>): (r: seq<nat>)
    ensures multiset(r) == multiset(s)
    ensures forall x :: x in r <==> x in s
    ensures forall i, j :: 0 <= i < j < |r| ==> r[i] <= r[j]
  {
    NatOrderIsComparator(s);
    var r := InsertionSort(NatOrder, s);
    assert forall i, j :: 0 <= i < j < |r| ==> NatOrder(r[i], r[j]) <= 0;
    assert forall x :: x in r <==> x in multiset(s);
    r
  }
}
