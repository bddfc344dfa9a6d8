/** Ordering rows by an `ORDER BY major, minor` key: an insertion sort on
    sequences, proved to return a sorted permutation of its input. */
module Sorting {

  /** A two-column sort key, compared lexicographically. A descending column
      is expressed by negating its value. */
  datatype Key = Key(major: int, minor: int)

  predicate KeyLe(a: Key, b: Key) {
    a.major < b.major || (a.major == b.major && a.minor <= b.minor)
  }

  /** Every earlier row has a key no greater than every later row. */
  ghost predicate SortedBy<T>(s: seq<T>, key: T -> Key) {
    forall i, j :: 0 <= i < j < |s| ==> KeyLe(key(s[i]), key(s[j]))
  }

  /** `a` sorts no later than any row of `s`. */
  ghost predicate LowerBound<T>(a: T, s: seq<T>, key: T -> Key) {
    forall y :: y in s ==> KeyLe(key(a), key(y))
  }
  /** Prepending a lower bound keeps a sequence sorted. */
  lemma ConsSorted<T>(a: T, s: seq<T>, key: T -> Key)
    requires SortedBy(s, key) && LowerBound(a, s, key)
    ensures SortedBy([a] + s, key)
  {
    var r := [a] + s;
    forall i, j | 0 <= i < j < |r|
      ensures KeyLe(key(r[i]), key(r[j]))
    {
      assert r[j] == s[j - 1];
      if i > 0 { assert r[i] == s[i - 1]; }
    }
  }
  /** Places `x` into the sorted `s` before the first row whose key is not
      smaller than its own. */
  function Insert<T>(x: T, s: seq<T>, key: T -> Key): (r: seq<T>)
    requires SortedBy(s, key)
    ensures SortedBy(r, key)
    ensures multiset(r) == multiset(s) + multiset{x}
  {
    if |s| == 0 then [x]
    else if KeyLe(key(x), key(s[0])) then
      assert LowerBound(x, s, key) by {
        forall y | y in s ensures KeyLe(key(x), key(y)) {
          var k :| 0 <= k < |s| && s[k] == y;
        }
      }
      ConsSorted(x, s, key);
      [x] + s
    else
      var rest := Insert(x, s[1..], key);
      assert s == [s[0]] + s[1..];
      assert LowerBound(s[0], rest, key) by {
        forall y | y in rest ensures KeyLe(key(s[0]), key(y)) {
          assert y in multiset(rest);
          if y != x {
            assert y in multiset(s[1..]);
            var k :| 0 <= k < |s[1..]| && s[1..][k] == y;
            assert s[k + 1] == y;
          }
        }
      }
      ConsSorted(s[0], rest, key);
      [s[0]] + rest
  }

  /** The rows of `s` rearranged so that their keys ascend. */
  function SortBy<T(!new)>(s: seq<T>, key: T -> Key): (r: seq<T>)
    ensures SortedBy(r, key)
    ensures multiset(r) == multiset(s)
    ensures |r| == |s|
    ensures forall x :: x in r <==> x in s
  {
    if |s| == 0 then []
    else
      assert s == [s[0]] + s[1..];
      var r := Insert(s[0], SortBy(s[1..], key), key);
      assert forall x :: x in r <==> x in s by {
        forall x ensures x in r <==> x in s {
          assert x in r <==> x in multiset(r);
          assert x in s <==> x in multiset(s);
        }
      }
      r
  }
}
