/** Generic operations on a table held as a sequence of rows in storage
    order: selecting rows by a predicate (`WHERE`), updating rows in place
    (`UPDATE … SET`), and the primary-key discipline that keys never repeat. */
module Tables {

  /** The rows of `s` for which `keep` holds, in storage order. */
  function Filter<T(!new)>(s: seq<T>, keep: T -> bool): (r: seq<T>)
    ensures |r| <= |s|
    ensures forall x :: x in r <==> x in s && keep(x)
    ensures multiset(r) <= multiset(s)
  {
    if |s| == 0 then []
    else
      assert s == [s[0]] + s[1..];
      if keep(s[0]) then [s[0]] + Filter(s[1..], keep) else Filter(s[1..], keep)
  }

  /** The complement of a row predicate. */
  function Not<T>(p: T -> bool): T -> bool {
    x => !p(x)
  }

  /** Every row of `s` passed through `f`, in place. */
  function MapRows<T>(s: seq<T>, f: T -> T): (r: seq<T>)
    ensures |r| == |s|
    ensures forall i :: 0 <= i < |s| ==> r[i] == f(s[i])
  {
    seq(|s|, i requires 0 <= i < |s| => f(s[i]))
  }

  /** No two rows of `s` share a key. */
  predicate KeysDistinct<T, K(==)>(s: seq<T>, key: T -> K) {
    forall i, j :: 0 <= i < |s| && 0 <= j < |s| && key(s[i]) == key(s[j]) ==> i == j
  }

  /** The keys present in `s`. */
  function Keys<T, K(==)>(s: seq<T>, key: T -> K): set<K> {
    set i | 0 <= i < |s| :: key(s[i])
  }

  /** A key that selects a row selects exactly one row. */
  lemma KeyDeterminesRow<T, K>(s: seq<T>, key: T -> K, x: T, y: T)
    requires KeysDistinct(s, key)
    requires x in s && y in s && key(x) == key(y)
    ensures x == y
  {
    var i :| 0 <= i < |s| && s[i] == x;
    var j :| 0 <= j < |s| && s[j] == y;
  }

  /** Deleting rows never makes two remaining rows share a key. */
  lemma {:induction false} FilterKeysDistinct<T(!new), K>(s: seq<T>, keep: T -> bool, key: T -> K)
    requires KeysDistinct(s, key)
    ensures KeysDistinct(Filter(s, keep), key)
  {
    if |s| > 0 {
      var rest := s[1..];
      assert KeysDistinct(rest, key) by {
        forall i, j | 0 <= i < |rest| && 0 <= j < |rest| && key(rest[i]) == key(rest[j])
          ensures i == j
        {
          assert s[i + 1] == rest[i] && s[j + 1] == rest[j];
        }
      }
      FilterKeysDistinct(rest, keep, key);
      if keep(s[0]) {
        var r := Filter(s, keep);
        var tail := Filter(rest, keep);
        assert r == [s[0]] + tail;
        assert forall y :: y in tail ==> key(y) != key(s[0]) by {
          forall y | y in tail
            ensures key(y) != key(s[0])
          {
            var k :| 0 <= k < |rest| && rest[k] == y;
            assert s[k + 1] == y;
          }
        }
        forall i, j | 0 <= i < |r| && 0 <= j < |r| && key(r[i]) == key(r[j])
          ensures i == j
        {
          if i > 0 && j > 0 {
            assert r[i] == tail[i - 1] && r[j] == tail[j - 1];
          }
        }
      }
    }
  }

  /** Appending rows with fresh, mutually distinct keys keeps keys distinct. */
  lemma AppendKeysDistinct<T, K>(s: seq<T>, t: seq<T>, key: T -> K)
    requires KeysDistinct(s, key) && KeysDistinct(t, key)
    requires forall x :: x in t ==> key(x) !in Keys(s, key)
    ensures KeysDistinct(s + t, key)
  {
    var u := s + t;
    forall i, j | 0 <= i < |u| && 0 <= j < |u| && key(u[i]) == key(u[j])
      ensures i == j
    {
      if i >= |s| && j >= |s| {
        assert u[i] == t[i - |s|] && u[j] == t[j - |s|];
      }
    }
  }

  /** Rewriting rows without touching their keys keeps keys distinct. */
  lemma MapRowsKeysDistinct<T, K>(s: seq<T>, f: T -> T, key: T -> K)
    requires KeysDistinct(s, key)
    requires forall x :: x in s ==> key(f(x)) == key(x)
    ensures KeysDistinct(MapRows(s, f), key)
  {
    var r := MapRows(s, f);
    forall i, j | 0 <= i < |r| && 0 <= j < |r| && key(r[i]) == key(r[j])
      ensures i == j
    {
      assert key(r[i]) == key(s[i]) && key(r[j]) == key(s[j]);
    }
  }

  /** Rewriting rows without touching their keys leaves the set of keys alone. */
  lemma MapRowsKeys<T, K>(s: seq<T>, f: T -> T, key: T -> K)
    requires forall x :: x in s ==> key(f(x)) == key(x)
    ensures Keys(MapRows(s, f), key) == Keys(s, key)
  {
    var r := MapRows(s, f);
    forall k | k in Keys(s, key) ensures k in Keys(r, key) {
      var i :| 0 <= i < |s| && key(s[i]) == k;
      assert r[i] in r;
    }
    forall k | k in Keys(r, key) ensures k in Keys(s, key) {
      var i :| 0 <= i < |r| && key(r[i]) == k;
      assert s[i] in s;
    }
  }

  /** The keys of a selection are keys of the table. */
  lemma FilterKeys<T(!new), K>(s: seq<T>, keep: T -> bool, key: T -> K)
    ensures Keys(Filter(s, keep), key) <= Keys(s, key)
  {
    var r := Filter(s, keep);
    forall k | k in Keys(r, key) ensures k in Keys(s, key) {
      var i :| 0 <= i < |r| && key(r[i]) == k;
      assert r[i] in s;
      var j :| 0 <= j < |s| && s[j] == r[i];
    }
  }

  /** Selecting twice by the same predicate selects the same rows. */
  lemma {:induction false} FilterTwice<T(!new)>(s: seq<T>, keep: T -> bool)
    ensures Filter(Filter(s, keep), keep) == Filter(s, keep)
  {
    if |s| > 0 {
      FilterTwice(s[1..], keep);
    }
  }

  /** A row's key is among the table's keys. */
  lemma KeyOfRow<T, K>(s: seq<T>, key: T -> K, x: T)
    requires x in s
    ensures key(x) in Keys(s, key)
  {
    var i :| 0 <= i < |s| && s[i] == x;
  }

  /** Every key of the table is the key of one of its rows. */
  lemma RowOfKey<T, K>(s: seq<T>, key: T -> K, k: K) returns (x: T)
    requires k in Keys(s, key)
    ensures x in s && key(x) == k
  {
    var i :| 0 <= i < |s| && key(s[i]) == k;
    x := s[i];
  }

  /** Dropping the first row keeps keys distinct. */
  lemma TailKeysDistinct<T, K>(s: seq<T>, key: T -> K)
    requires |s| > 0 && KeysDistinct(s, key)
    ensures KeysDistinct(s[1..], key)
    ensures s[0] !in s[1..]
  {
    var rest := s[1..];
    forall i, j | 0 <= i < |rest| && 0 <= j < |rest| && key(rest[i]) == key(rest[j])
      ensures i == j
    {
      assert s[i + 1] == rest[i] && s[j + 1] == rest[j];
    }
    forall k | 0 <= k < |rest| ensures rest[k] != s[0] {
      assert s[k + 1] == rest[k];
    }
  }

  /** Selecting from a table whose keys are distinct yields as many rows as
      there are distinct matching rows. */
  lemma {:induction false} DistinctFilterSize<T(!new), K>(s: seq<T>, keep: T -> bool, key: T -> K)
    requires KeysDistinct(s, key)
    ensures |Filter(s, keep)| == |Selected(s, keep)|
  {
    if |s| == 0 {
      assert Selected(s, keep) == {};
    } else {
      TailKeysDistinct(s, key);
      DistinctFilterSize(s[1..], keep, key);
      var tail := Selected(s[1..], keep);
      assert s == [s[0]] + s[1..];
      if keep(s[0]) {
        assert Selected(s, keep) == {s[0]} + tail;
      } else {
        assert Selected(s, keep) == tail;
      }
    }
  }

  /** The distinct rows of `s` for which `keep` holds. */
  ghost function Selected<T(!new)>(s: seq<T>, keep: T -> bool): set<T> {
    set x | x in s && keep(x)
  }

  /** Selecting from two tables appended is appending the selections. */
  lemma {:induction false} FilterAppend<T(!new)>(s: seq<T>, t: seq<T>, keep: T -> bool)
    ensures Filter(s + t, keep) == Filter(s, keep) + Filter(t, keep)
  {
    if |s| == 0 {
      assert s + t == t;
    } else {
      assert (s + t)[1..] == s[1..] + t;
      FilterAppend(s[1..], t, keep);
    }
  }

  /** A weaker predicate selects at least as many rows. */
  lemma {:induction false} FilterMonotone<T(!new)>(s: seq<T>, p: T -> bool, q: T -> bool)
    requires forall x :: x in s && p(x) ==> q(x)
    ensures |Filter(s, p)| <= |Filter(s, q)|
  {
    if |s| > 0 {
      FilterMonotone(s[1..], p, q);
    }
  }

  /** A selection is empty exactly when no row qualifies. */
  lemma FilterEmpty<T(!new)>(s: seq<T>, keep: T -> bool)
    ensures Filter(s, keep) == [] <==> forall x :: x in s ==> !keep(x)
  {
    var r := Filter(s, keep);
    if r != [] {
      assert r[0] in r;
    }
  }

  /** A predicate and its complement split a table between them. */
  lemma {:induction false} FilterSplits<T(!new)>(s: seq<T>, keep: T -> bool)
    ensures |Filter(s, keep)| + |Filter(s, Not(keep))| == |s|
  {
    if |s| > 0 {
      FilterSplits(s[1..], keep);
    }
  }
}
