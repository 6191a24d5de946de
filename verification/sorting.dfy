/** Python's `list.sort(key=...)`, which is stable, as a stable insertion sort
    on a real-valued key. A descending sort (`reverse=True`) is the ascending
    sort on the negated key: both keep equal-key elements in input order. */
module Sorting {

  predicate SortedBy<T>(s: seq<T>, key: T -> real) {
    forall i, j :: 0 <= i < j < |s| ==> key(s[i]) <= key(s[j])
  }

  /** Places `x` in front of the first element whose key is not smaller. */
  function Insert<T>(x: T, s: seq<T>, key: T -> real): (r: seq<T>)
    requires SortedBy(s, key)
    ensures SortedBy(r, key)
    ensures multiset(r) == multiset(s) + multiset{x}
    ensures |r| == |s| + 1
  {
    if |s| == 0 then [x]
    else if key(x) <= key(s[0]) then
      ConsSorted(x, s, key);
      [x] + s
    else
      var rest := Insert(x, s[1..], key);
      assert s == [s[0]] + s[1..];
      HeadBelowRest(x, s, rest, key);
      ConsSorted(s[0], rest, key);
      [s[0]] + rest
  }

  /** An element no larger than every element of a sorted list may go in
      front of it. */
  lemma ConsSorted<T>(h: T, s: seq<T>, key: T -> real)
    requires SortedBy(s, key)
    requires forall j :: 0 <= j < |s| ==> key(h) <= key(s[j])
    ensures SortedBy([h] + s, key)
  {
    var r := [h] + s;
    forall i, j | 0 <= i < j < |r|
      ensures key(r[i]) <= key(r[j])
    {
      assert r[j] == s[j - 1];
      if i > 0 {
        assert r[i] == s[i - 1];
      }
    }
  }

  /** Every element of the list `rest` built from the tail of a sorted `s`
      and a larger `x` is at least the head of `s`. */
  lemma HeadBelowRest<T>(x: T, s: seq<T>, rest: seq<T>, key: T -> real)
    requires |s| > 0 && SortedBy(s, key) && key(s[0]) < key(x)
    requires multiset(rest) == multiset(s[1..]) + multiset{x}
    ensures forall j :: 0 <= j < |rest| ==> key(s[0]) <= key(rest[j])
  {
    forall j | 0 <= j < |rest|
      ensures key(s[0]) <= key(rest[j])
    {
      var v := rest[j];
      assert v in multiset(rest);
      if v != x {
        assert v in multiset(s[1..]);
        var i :| 0 <= i < |s[1..]| && s[1..][i] == v;
        assert s[i + 1] == v;
      }
    }
  }

  function Sort<T>(s: seq<T>, key: T -> real): (r: seq<T>)
    ensures SortedBy(r, key)
    ensures multiset(r) == multiset(s)
    ensures |r| == |s|
  {
    if |s| == 0 then []
    else
      assert s == [s[0]] + s[1..];
      Insert(s[0], Sort(s[1..], key), key)
  }
}
