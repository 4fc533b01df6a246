/** Sequence helpers standing in for JavaScript's array methods. */
module Seqs {
  import opened Wrappers

  /** A sequence is its front followed by the suffix it ends with. */
  lemma SuffixSplit<T>(s: seq<T>, suffix: seq<T>)
    requires |suffix| <= |s| && suffix == s[|s| - |suffix|..]
    ensures s == s[..|s| - |suffix|] + suffix
  {
  }

  /** A sequence is the prefix it starts with followed by its rest. */
  lemma PrefixSplit<T>(s: seq<T>, prefix: seq<T>)
    requires |prefix| <= |s| && prefix == s[..|prefix|]
    ensures s == prefix + s[|prefix|..]
  {
  }

  /** `Array.prototype.filter`: keeps the elements `keep` accepts, in order. */
  function Filter<T(!new)>(s: seq<T>, keep: T -> bool): (r: seq<T>)
    ensures |r| <= |s|
    ensures forall i :: 0 <= i < |r| ==> keep(r[i])
  {
    if |s| == 0 then []
    else
      assert s == [s[0]] + s[1..];
      (if keep(s[0]) then [s[0]] else []) + Filter(s[1..], keep)
  }

  /** Filtering keeps every copy of a kept element and no copy of another. */
  lemma {:induction false} FilterMultiset<T(!new)>(s: seq<T>, keep: T -> bool)
    ensures forall x :: multiset(Filter(s, keep))[x] == if keep(x) then multiset(s)[x] else 0
  {
    if |s| > 0 {
      FilterMultiset(s[1..], keep);
      assert s == [s[0]] + s[1..];
    }
  }

  /** The elements of the filtered list are the elements of the list that are kept. */
  lemma FilterMembers<T(!new)>(s: seq<T>, keep: T -> bool)
    ensures forall x :: x in Filter(s, keep) <==> x in s && keep(x)
  {
    FilterMultiset(s, keep);
    forall x
      ensures x in Filter(s, keep) <==> x in s && keep(x)
    {
      assert x in Filter(s, keep) <==> x in multiset(Filter(s, keep));
      assert x in s <==> x in multiset(s);
    }
  }

  /** Filtering a list with a head: the head if it is kept, then the filtered rest. */
  lemma FilterCons<T(!new)>(x: T, s: seq<T>, keep: T -> bool)
    ensures Filter([x] + s, keep) == (if keep(x) then [x] else []) + Filter(s, keep)
  {
    assert ([x] + s)[1..] == s;
  }

  /** A filter that accepts every element changes nothing. */
  lemma {:induction false} FilterKeepsAll<T(!new)>(s: seq<T>, keep: T -> bool)
    requires forall i :: 0 <= i < |s| ==> keep(s[i])
    ensures Filter(s, keep) == s
  {
    if |s| > 0 {
      FilterKeepsAll(s[1..], keep);
      FilterCons(s[0], s[1..], keep);
      assert s == [s[0]] + s[1..];
    }
  }

  /** A filter that accepts each of four elements keeps all four. */
  lemma FilterKeepsFour<T(!new)>(a: T, b: T, c: T, d: T, keep: T -> bool)
    requires keep(a) && keep(b) && keep(c) && keep(d)
    ensures Filter([a, b, c, d], keep) == [a, b, c, d]
  {
    var s := [a, b, c, d];
    assert forall i :: 0 <= i < |s| ==> keep(s[i]);
    FilterKeepsAll(s, keep);
  }

  /** `Array.prototype.map`. */
  function Map<T, U>(s: seq<T>, f: T -> U): (r: seq<U>)
    ensures |r| == |s| && forall i :: 0 <= i < |s| ==> r[i] == f(s[i])
  {
    seq(|s|, i requires 0 <= i < |s| => f(s[i]))
  }

  lemma MapOfFour<T, U>(a: T, b: T, c: T, d: T, f: T -> U)
    ensures Map([a, b, c, d], f) == [f(a), f(b), f(c), f(d)]
  {
  }

  /** Mapping with `f` and then with `g` changes nothing when `g` undoes `f` on every
      element. */
  lemma MapInverse<T, U>(s: seq<T>, f: T -> U, g: U -> T)
    requires forall i :: 0 <= i < |s| ==> g(f(s[i])) == s[i]
    ensures Map(Map(s, f), g) == s
  {
  }

  /** A sequence computed element by element from `a + b` is the results for `a` followed
      by those for `b`. */
  lemma PointwiseAppend<T, U>(a: seq<T>, b: seq<T>, fa: seq<U>, fb: seq<U>, fab: seq<U>, f: T -> U)
    requires |fa| == |a| && forall i :: 0 <= i < |a| ==> fa[i] == f(a[i])
    requires |fb| == |b| && forall i :: 0 <= i < |b| ==> fb[i] == f(b[i])
    requires |fab| == |a + b| && forall i :: 0 <= i < |a + b| ==> fab[i] == f((a + b)[i])
    ensures fab == fa + fb
  {
    forall k | 0 <= k < |fab|
      ensures fab[k] == (fa + fb)[k]
    {
      if k < |a| {
        assert (a + b)[k] == a[k];
      } else {
        assert (a + b)[k] == b[k - |a|];
      }
    }
  }

  /** Mapping a sequence with one more element in front. */
  lemma MapCons<T, U>(x: T, s: seq<T>, f: T -> U)
    ensures Map([x] + s, f) == [f(x)] + Map(s, f)
  {
    assert Map([x] + s, f)[1..] == Map(s, f);
  }

  /** Keeping, mapping and keeping again, one element at a time. */
  lemma PipelineCons<T(!new), U(!new)>(x: T, s: seq<T>, keep: T -> bool, f: T -> U, ok: U -> bool)
    ensures Filter(Map(Filter([x] + s, keep), f), ok)
      == (if keep(x) && ok(f(x)) then [f(x)] else []) + Filter(Map(Filter(s, keep), f), ok)
  {
    FilterCons(x, s, keep);
    if keep(x) {
      PipelineKept(x, Filter(s, keep), f, ok);
    } else {
      assert Filter([x] + s, keep) == Filter(s, keep);
    }
  }

  lemma PipelineKept<T, U(!new)>(x: T, kept: seq<T>, f: T -> U, ok: U -> bool)
    ensures Filter(Map([x] + kept, f), ok) == (if ok(f(x)) then [f(x)] else []) + Filter(Map(kept, f), ok)
  {
    MapCons(x, kept, f);
    FilterCons(f(x), Map(kept, f), ok);
  }

  /** Keeping, mapping and keeping again, the first element apart. */
  lemma PipelineHead<T(!new), U(!new)>(s: seq<T>, keep: T -> bool, f: T -> U, ok: U -> bool)
    requires |s| > 0
    ensures Filter(Map(Filter(s, keep), f), ok)
      == (if keep(s[0]) && ok(f(s[0])) then [f(s[0])] else []) + Filter(Map(Filter(s[1..], keep), f), ok)
  {
    assert s == [s[0]] + s[1..];
    PipelineCons(s[0], s[1..], keep, f, ok);
  }

  /** Filtering distributes over concatenation. */
  lemma {:induction false} FilterAppend<T(!new)>(a: seq<T>, b: seq<T>, keep: T -> bool)
    ensures Filter(a + b, keep) == Filter(a, keep) + Filter(b, keep)
  {
    if |a| == 0 {
      assert a + b == b;
    } else {
      assert (a + b)[1..] == a[1..] + b;
      FilterAppend(a[1..], b, keep);
    }
  }

  /** Two successive filters are one filter by the conjunction. */
  lemma {:induction false} FilterFilter<T(!new)>(s: seq<T>, f: T -> bool, g: T -> bool, both: T -> bool)
    requires forall x :: both(x) == (f(x) && g(x))
    ensures Filter(Filter(s, f), g) == Filter(s, both)
  {
    if |s| > 0 {
      FilterFilter(s[1..], f, g, both);
      var rest := Filter(s[1..], f);
      if f(s[0]) {
        assert Filter(s, f) == [s[0]] + rest;
        assert ([s[0]] + rest)[1..] == rest;
      } else {
        assert Filter(s, f) == rest;
      }
    }
  }

  /** `Array.prototype.findIndex`: the index of the first element `p` accepts. */
  function FindFirst<T>(s: seq<T>, p: T -> bool): (r: Option<nat>)
    ensures r.Some? ==> r.value < |s| && p(s[r.value])
    ensures r.Some? ==> forall j :: 0 <= j < r.value ==> !p(s[j])
    ensures r.None? <==> forall j :: 0 <= j < |s| ==> !p(s[j])
  {
    if |s| == 0 then None
    else if p(s[0]) then Some(0)
    else match FindFirst(s[1..], p)
      case None => None
      case Some(i) => Some(i + 1)
  }

  /** `Array.prototype.find(p) ?? null`: the first element `p` accepts. */
  function Find<T>(s: seq<T>, p: T -> bool): (r: Option<T>)
    ensures r.None? <==> forall j :: 0 <= j < |s| ==> !p(s[j])
    ensures r.Some? ==> exists i :: 0 <= i < |s| && s[i] == r.value && p(s[i]) && forall j :: 0 <= j < i ==> !p(s[j])
  {
    match FindFirst(s, p)
    case None => None
    case Some(i) => Some(s[i])
  }

  /** The number of elements `s.slice(0, end)` keeps: a negative `end` counts from the back. */
  function SliceLength(n: nat, end: int): (k: nat)
    ensures k <= n
    ensures 0 <= end ==> k == if end < n then end else n
    ensures end < 0 ==> k == if n + end < 0 then 0 else n + end
  {
    if end < 0 then (if n + end < 0 then 0 else n + end)
    else if end < n then end else n
  }

  /** `s.slice(0, end)`. */
  function SliceTo<T>(s: seq<T>, end: int): (r: seq<T>)
    ensures |r| == SliceLength(|s|, end) && r == s[..|r|]
  {
    s[..SliceLength(|s|, end)]
  }

  ghost predicate Distinct<T>(s: seq<T>) {
    forall i, j :: 0 <= i < j < |s| ==> s[i] != s[j]
  }

  /** The elements of `s` without repeats, in order of first appearance (what a `Set` built from `s` iterates). */
  function Dedup<T(==,!new)>(s: seq<T>): (r: seq<T>)
    ensures Distinct(r)
    ensures forall x :: x in r <==> x in s
    ensures |r| <= |s|
  {
    if |s| == 0 then []
    else
      var init := Dedup(s[..|s| - 1]);
      var last := s[|s| - 1];
      assert forall x :: x in s <==> x in s[..|s| - 1] || x == last by {
        assert s == s[..|s| - 1] + [last];
      }
      if last in init then init else init + [last]
  }
}
