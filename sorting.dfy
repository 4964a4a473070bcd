/**
 * Mongo's `.sort({ createdAt: 1 })` and `.sort({ createdAt: -1 })`, modelled as an insertion
 * sort on an integer key. Mongo does not promise any order among equal keys, so nothing is
 * claimed about ties: only that the output is ordered and is a permutation of the input.
 */
module Sorting {

  predicate InOrder<T>(a: T, b: T, key: T -> int, descending: bool) {
    if descending then key(a) >= key(b) else key(a) <= key(b)
  }

  predicate Ordered<T>(s: seq<T>, key: T -> int, descending: bool) {
    forall i, j :: 0 <= i < j < |s| ==> InOrder(s[i], s[j], key, descending)
  }

  /** Prepending an element that may precede every element of an ordered sequence keeps it ordered. */
  lemma OrderedCons<T>(h: T, t: seq<T>, key: T -> int, descending: bool)
    requires Ordered(t, key, descending)
    requires forall y :: y in multiset(t) ==> InOrder(h, y, key, descending)
    ensures Ordered([h] + t, key, descending)
  {
    forall i, j | 0 <= i < j < |[h] + t|
      ensures InOrder(([h] + t)[i], ([h] + t)[j], key, descending)
    {
      if i == 0 {
        assert ([h] + t)[j] == t[j - 1];
        assert t[j - 1] in multiset(t);
      } else {
        assert ([h] + t)[i] == t[i - 1] && ([h] + t)[j] == t[j - 1];
      }
    }
  }

  /** Puts `x` before the first element it may precede. */
  function Insert<T>(x: T, s: seq<T>, key: T -> int, descending: bool): (r: seq<T>)
    requires Ordered(s, key, descending)
    ensures Ordered(r, key, descending)
    ensures multiset(r) == multiset(s) + multiset{x}
  {
    if s == [] || InOrder(x, s[0], key, descending) then
      OrderedCons(x, s, key, descending);
      [x] + s
    else
      var tail := Insert(x, s[1..], key, descending);
      assert s == [s[0]] + s[1..];
      assert Ordered(s[1..], key, descending);
      assert forall y :: y in multiset(s[1..]) ==> InOrder(s[0], y, key, descending) by {
        forall y | y in multiset(s[1..]) ensures InOrder(s[0], y, key, descending) {
          var k :| 0 <= k < |s[1..]| && s[1..][k] == y;
          assert s[k + 1] == y;
        }
      }
      OrderedCons(s[0], tail, key, descending);
      [s[0]] + tail
  }

  /** The key-ordered permutation of `s`. */
  function SortBy<T>(s: seq<T>, key: T -> int, descending: bool): (r: seq<T>)
    ensures Ordered(r, key, descending)
    ensures multiset(r) == multiset(s)
  {
    if s == [] then []
    else
      assert s == [s[0]] + s[1..];
      Insert(s[0], SortBy(s[1..], key, descending), key, descending)
  }

  /** A sorted result holds the same elements as the input, each as often. */
  lemma SortedSameElements<T>(s: seq<T>, key: T -> int, descending: bool, x: T)
    ensures x in SortBy(s, key, descending) <==> x in s
  {
    var r := SortBy(s, key, descending);
    assert x in r <==> x in multiset(r);
  }
}
