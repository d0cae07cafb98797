/** `DataFrame.sort_values`: the rows reordered by a numeric key. pandas does
    not promise an order among equal keys (its default sort is not stable);
    the insertion sort here keeps equal keys in input order, which is one of
    the orders pandas may produce. */
module Sorting {

  ghost predicate SortedBy<T>(s: seq<T>, key: T -> real) {
    forall i, j :: 0 <= i < j < |s| ==> key(s[i]) <= key(s[j])
  }

  function Insert<T>(x: T, s: seq<T>, key: T -> real): (r: seq<T>)
    requires SortedBy(s, key)
    ensures SortedBy(r, key)
    ensures multiset(r) == multiset(s) + multiset{x}
    ensures forall y :: y in r ==> y == x || y in s
  {
    if s == [] then [x]
    else if key(x) <= key(s[0]) then [x] + s
    else
      var rest := Insert(x, s[1..], key);
      assert s == [s[0]] + s[1..];
      HeadBelowRest(s, x, rest, key);
      ConsSorted(s[0], rest, key);
      [s[0]] + rest
  }

  /** The head of a sorted sequence is below everything after an insertion
      of a larger element into its tail. */
  lemma HeadBelowRest<T>(s: seq<T>, x: T, rest: seq<T>, key: T -> real)
    requires s != [] && SortedBy(s, key) && key(s[0]) < key(x)
    requires forall y :: y in rest ==> y == x || y in s[1..]
    ensures forall j :: 0 <= j < |rest| ==> key(s[0]) <= key(rest[j])
  {
    forall j | 0 <= j < |rest| ensures key(s[0]) <= key(rest[j]) {
      assert rest[j] in rest;
      if rest[j] != x {
        var k :| 0 <= k < |s[1..]| && s[1..][k] == rest[j];
        assert s[k + 1] == rest[j];
      }
    }
  }

  lemma ConsSorted<T>(h: T, rest: seq<T>, key: T -> real)
    requires SortedBy(rest, key)
    requires forall j :: 0 <= j < |rest| ==> key(h) <= key(rest[j])
    ensures SortedBy([h] + rest, key)
  {
    var r := [h] + rest;
    forall i, j | 0 <= i < j < |r| ensures key(r[i]) <= key(r[j]) {
      assert r[j] == rest[j - 1];
      if i > 0 {
        assert r[i] == rest[i - 1];
      }
    }
  }

  /** Ascending by `key`, a permutation of the input. */
  function SortBy<T>(s: seq<T>, key: T -> real): (r: seq<T>)
    ensures SortedBy(r, key)
    ensures multiset(r) == multiset(s)
    ensures |r| == |s|
  {
    if s == [] then []
    else
      assert s == [s[0]] + s[1..];
      var r := Insert(s[0], SortBy(s[1..], key), key);
      assert |r| == |multiset(r)| == |multiset(s)| == |s|;
      r
  }

  /** Sorting keeps the rows that are there and adds none. */
  lemma SortByMembers<T>(s: seq<T>, key: T -> real)
    ensures forall x :: x in SortBy(s, key) <==> x in s
  {
    var r := SortBy(s, key);
    forall x ensures x in r <==> x in s {
      assert x in r <==> x in multiset(r);
      assert x in s <==> x in multiset(s);
    }
  }

  /** Two rows with different keys have one ascending order. */
  lemma SortedPair<T>(s: seq<T>, a: T, b: T, key: T -> real)
    requires SortedBy(s, key) && multiset(s) == multiset{a, b} && key(a) < key(b)
    ensures s == [a, b]
  {
    assert |s| == |multiset(s)| == 2;
    assert s == [s[0], s[1]];
    assert multiset{s[0], s[1]} == multiset{a, b};
    assert s[0] in multiset{a, b} && s[1] in multiset{a, b};
    assert key(s[0]) <= key(s[1]);
  }
}
