/**
 * Stable insertion sort by a numeric key: the model of an SQL `ORDER BY` whose
 * rows are produced in the table's own order and then sorted.
 */
module Sorting {

  /** Keys never decrease along `s`. */
  predicate SortedBy<T>(s: seq<T>, key: T -> real)
  {
    forall i, j :: 0 <= i < j < |s| ==> key(s[i]) <= key(s[j])
  }

  /** An element no greater than the head of a sorted sequence can go in front of it. */
  lemma ConsSorted<T>(a: T, t: seq<T>, key: T -> real)
    requires SortedBy(t, key) && (|t| > 0 ==> key(a) <= key(t[0]))
    ensures SortedBy([a] + t, key)
  {
    var r := [a] + t;
    forall i, j | 0 <= i < j < |r| ensures key(r[i]) <= key(r[j]) {
      assert r[j] == t[j - 1];
      if i > 0 {
        assert r[i] == t[i - 1];
      }
    }
  }

  /** Puts `x` in front of the first element whose key is not smaller than its own. */
  function Insert<T>(x: T, s: seq<T>, key: T -> real): (r: seq<T>)
    requires SortedBy(s, key)
    ensures |r| == |s| + 1
    ensures multiset(r) == multiset(s) + multiset{x}
    ensures r[0] == x || (|s| > 0 && r[0] == s[0])
    ensures SortedBy(r, key)
    decreases |s|
  {
    if |s| == 0 || key(x) <= key(s[0]) then
      ConsSorted(x, s, key);
      [x] + s
    else
      assert SortedBy(s[1..], key);
      var rest := Insert(x, s[1..], key);
      assert s == [s[0]] + s[1..];
      assert key(s[0]) <= key(rest[0]);
      ConsSorted(s[0], rest, key);
      [s[0]] + rest
  }

  /** The elements of `s` ordered by `key`; equal keys keep their order in `s`. */
  function SortByKey<T>(s: seq<T>, key: T -> real): (r: seq<T>)
    ensures |r| == |s|
    ensures multiset(r) == multiset(s)
    ensures SortedBy(r, key)
    decreases |s|
  {
    if |s| == 0 then []
    else
      assert s == [s[0]] + s[1..];
      Insert(s[0], SortByKey(s[1..], key), key)
  }

  /** Sorting what is already in order changes nothing. */
  lemma {:induction false} SortSortedIsIdentity<T>(s: seq<T>, key: T -> real)
    requires SortedBy(s, key)
    ensures SortByKey(s, key) == s
    decreases |s|
  {
    if |s| > 0 {
      assert SortedBy(s[1..], key);
      SortSortedIsIdentity(s[1..], key);
      assert s == [s[0]] + s[1..];
    }
  }

  /** The first k elements of a sorted sequence are no farther than any element after them. */
  lemma SortedPrefixIsLeast<T>(s: seq<T>, k: nat, key: T -> real)
    requires SortedBy(s, key) && k <= |s|
    ensures SortedBy(s[..k], key)
    ensures multiset(s[..k]) <= multiset(s)
    ensures forall x, i :: x in multiset(s) - multiset(s[..k]) && 0 <= i < k ==> key(s[i]) <= key(x)
  {
    assert s == s[..k] + s[k..];
    assert multiset(s) == multiset(s[..k]) + multiset(s[k..]);
    forall x, i | x in multiset(s) - multiset(s[..k]) && 0 <= i < k
      ensures key(s[i]) <= key(x)
    {
      assert x in multiset(s[k..]);
      var j :| 0 <= j < |s[k..]| && s[k..][j] == x;
      assert s[k + j] == x;
    }
  }

  /**
   * The `limit` elements with the least keys, in key order: the model of
   * `ORDER BY key LIMIT limit`.
   */
  function TakeLeast<T>(s: seq<T>, limit: nat, key: T -> real): (r: seq<T>)
    ensures |r| == if limit < |s| then limit else |s|
  {
    var sorted := SortByKey(s, key);
    sorted[..if limit < |sorted| then limit else |sorted|]
  }

  /** The elements `TakeLeast` keeps are sorted, taken from the input, and no farther than any it drops. */
  lemma TakeLeastIsLeast<T>(s: seq<T>, limit: nat, key: T -> real)
    ensures var r := TakeLeast(s, limit, key);
            && SortedBy(r, key)
            && multiset(r) <= multiset(s)
            && forall x, i :: x in multiset(s) - multiset(r) && 0 <= i < |r| ==> key(r[i]) <= key(x)
  {
    var sorted := SortByKey(s, key);
    var k := if limit < |sorted| then limit else |sorted|;
    assert TakeLeast(s, limit, key) == sorted[..k];
    assert multiset(sorted) == multiset(s);
    SortedPrefixIsLeast(sorted, k, key);
  }
}
