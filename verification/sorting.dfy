/** A stable sort by a "may come before" relation, standing in for `Array.prototype.sort`
    with a comparator (which is stable): an element goes before another when the
    comparator does not ask to swap them. */
module Sorting {

  ghost predicate TotalPreorder<T(!new)>(before: (T, T) -> bool) {
    && (forall x, y :: before(x, y) || before(y, x))
    && (forall x, y, z :: before(x, y) && before(y, z) ==> before(x, z))
  }

  /** Ordering by a key, larger first, and on equal keys by a tie-break, larger first,
      is a total preorder. */
  lemma KeyOrderIsPreorder<T(!new)>(before: (T, T) -> bool, key: T -> int, tie: T -> int)
    requires forall x, y :: before(x, y) == (key(x) > key(y) || (key(x) == key(y) && tie(x) >= tie(y)))
    ensures TotalPreorder(before)
  {
  }

  ghost predicate SortedBy<T>(s: seq<T>, before: (T, T) -> bool) {
    forall i, j :: 0 <= i < j < |s| ==> before(s[i], s[j])
  }

  /** Inserts `x` in front of the first element it may precede. */
  function Insert<T(!new)>(x: T, s: seq<T>, before: (T, T) -> bool): (r: seq<T>)
    ensures multiset(r) == multiset(s) + multiset{x}
    ensures |r| == |s| + 1
  {
    if |s| == 0 || before(x, s[0]) then [x] + s
    else
      assert s == [s[0]] + s[1..];
      [s[0]] + Insert(x, s[1..], before)
  }

  /** Insertion sort; an element of `s` ends up ahead of the later elements it ties with. */
  function Sort<T(!new)>(s: seq<T>, before: (T, T) -> bool): (r: seq<T>)
    ensures multiset(r) == multiset(s)
    ensures |r| == |s|
  {
    if |s| == 0 then []
    else
      assert s == [s[0]] + s[1..];
      Insert(s[0], Sort(s[1..], before), before)
  }

  /** Sorting neither adds nor loses an element. */
  lemma SortMembers<T(!new)>(s: seq<T>, before: (T, T) -> bool)
    ensures forall x :: x in Sort(s, before) <==> x in s
  {
    forall x
      ensures x in Sort(s, before) <==> x in s
    {
      assert x in Sort(s, before) <==> x in multiset(Sort(s, before));
      assert x in s <==> x in multiset(s);
    }
  }

  lemma {:induction false} InsertSorted<T(!new)>(x: T, s: seq<T>, before: (T, T) -> bool)
    requires TotalPreorder(before)
    requires SortedBy(s, before)
    ensures SortedBy(Insert(x, s, before), before)
  {
    if |s| > 0 && !before(x, s[0]) {
      var tail := Insert(x, s[1..], before);
      InsertSorted(x, s[1..], before);
      InsertMembers(x, s[1..], before);
      assert before(s[0], x);
      forall y | y in tail
        ensures before(s[0], y)
      {
        if y != x {
          var k :| 0 <= k < |s[1..]| && s[1..][k] == y;
          assert s[1..][k] == s[k + 1];
        }
      }
      SortedCons(s[0], tail, before);
    }
  }

  /** Inserting brings in `x` and nothing else new. */
  lemma InsertMembers<T(!new)>(x: T, s: seq<T>, before: (T, T) -> bool)
    ensures forall y :: y in Insert(x, s, before) ==> y == x || y in s
  {
    forall y | y in Insert(x, s, before)
      ensures y == x || y in s
    {
      assert y in multiset(Insert(x, s, before));
      assert y == x || y in multiset(s);
    }
  }

  /** A sorted sequence stays sorted under a new head that may precede all of it. */
  lemma SortedCons<T>(h: T, t: seq<T>, before: (T, T) -> bool)
    requires SortedBy(t, before)
    requires forall y :: y in t ==> before(h, y)
    ensures SortedBy([h] + t, before)
  {
    var r := [h] + t;
    forall i, j | 0 <= i < j < |r|
      ensures before(r[i], r[j])
    {
      if i == 0 {
        assert r[j] == t[j - 1] && r[j] in t;
      } else {
        assert r[i] == t[i - 1] && r[j] == t[j - 1];
      }
    }
  }

  lemma {:induction false} SortSorted<T(!new)>(s: seq<T>, before: (T, T) -> bool)
    requires TotalPreorder(before)
    ensures SortedBy(Sort(s, before), before)
  {
    if |s| > 0 {
      SortSorted(s[1..], before);
      InsertSorted(s[0], Sort(s[1..], before), before);
    }
  }

  /** In a sorted sequence every element from position `k` on may come after every
      element before it. */
  lemma SortedPrefixFirst<T(!new)>(full: seq<T>, before: (T, T) -> bool, k: nat)
    requires SortedBy(full, before) && k <= |full|
    ensures SortedBy(full[..k], before)
    ensures multiset(full[..k]) <= multiset(full)
    ensures forall i, y :: 0 <= i < k && y in multiset(full) - multiset(full[..k]) ==> before(full[i], y)
  {
    var r := full[..k];
    var rest := full[k..];
    assert full == r + rest;
    assert multiset(full) == multiset(r) + multiset(rest);
    forall i, y | 0 <= i < k && y in multiset(full) - multiset(r)
      ensures before(full[i], y)
    {
      assert y in multiset(rest);
      var j :| 0 <= j < |rest| && rest[j] == y;
      assert full[k + j] == y;
    }
  }

  /** The first `k` elements of the sorted sequence: sorted, taken from `s`, and every
      element left out may come after every element kept. */
  lemma TopK<T(!new)>(s: seq<T>, before: (T, T) -> bool, k: nat)
    requires TotalPreorder(before)
    requires k <= |s|
    ensures var r := Sort(s, before)[..k];
      && SortedBy(r, before)
      && multiset(r) <= multiset(s)
      && forall i, y :: 0 <= i < k && y in multiset(s) - multiset(r) ==> before(r[i], y)
  {
    var full := Sort(s, before);
    SortSorted(s, before);
    SortedPrefixFirst(full, before, k);
  }

  /** An element nothing else may precede heads any non-empty ranked selection drawn from
      `s` that leaves out nothing ranked above its head. */
  lemma BestFirst<T(!new)>(s: seq<T>, r: seq<T>, before: (T, T) -> bool, best: T)
    requires best in s && |r| >= 1 && multiset(r) <= multiset(s)
    requires forall j :: 0 < j < |r| ==> before(r[0], r[j])
    requires forall y :: y in multiset(s) - multiset(r) ==> before(r[0], y)
    requires forall y :: y in s && y != best ==> !before(y, best)
    ensures r[0] == best
  {
    assert r[0] in multiset(r);
    assert r[0] in s;
    assert before(r[0], best) ==> r[0] == best;
    assert best !in multiset(r) ==> best in multiset(s) - multiset(r);
    assert best in r;
    var j :| 0 <= j < |r| && r[j] == best;
    assert j == 0 || before(r[0], r[j]);
  }
}
