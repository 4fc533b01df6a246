/** Tag canonicalization (`buildCanonicalMap` in src/lib/recommendation.ts): every tag id is
    mapped to the id reached by following `canonicalTagId` merge pointers, with the start
    id as the fallback when the walk meets an id it has already visited. */
module Canonical {
  import opened Wrappers
  import opened Domain

  /** The `byId` lookup: one entry per tag id, holding a tag of that id. */
  function ById(tags: seq<Tag>): (m: map<Id, Tag>)
    ensures m.Keys == set t | t in tags :: t.id
    ensures forall k :: k in m ==> m[k] in tags && m[k].id == k
  {
    if |tags| == 0 then map[]
    else
      var last := tags[|tags| - 1];
      assert tags == tags[..|tags| - 1] + [last];
      ById(tags[..|tags| - 1])[last.id := last]
  }

  /** The merge pointer the walk follows from `x`: present, non-empty (JavaScript treats ""
      as absent) and not a self-reference. */
  function Next(m: map<Id, Tag>, x: Id): Option<Id> {
    if x in m && m[x].canonicalTagId.Some? && m[x].canonicalTagId.value != ""
       && m[x].canonicalTagId.value != x
    then Some(m[x].canonicalTagId.value)
    else None
  }

  /** An id where the walk stops: unknown, or with no pointer to follow. */
  predicate IsTerminal(m: map<Id, Tag>, x: Id) {
    Next(m, x).None?
  }

  /** The `resolve` loop: `cur` is the id being visited, `seen` the ids visited before it. */
  function Walk(m: map<Id, Tag>, start: Id, cur: Id, seen: set<Id>): Id
    requires seen <= m.Keys
    decreases |m.Keys - seen|
  {
    if cur == "" then start
    else if cur in seen then start
    else match Next(m, cur)
      case None => cur
      case Some(nxt) =>
        assert m.Keys - (seen + {cur}) < m.Keys - seen;
        Walk(m, start, nxt, seen + {cur})
  }

  function Resolve(m: map<Id, Tag>, id: Id): Id {
    Walk(m, id, id, {})
  }

  /** `buildCanonicalMap`: the resolved id of every id in the catalog. */
  function BuildCanonicalMap(tags: seq<Tag>): (cm: map<Id, Id>)
    ensures cm.Keys == ById(tags).Keys
  {
    var m := ById(tags);
    map id | id in m.Keys :: Resolve(m, id)
  }

  /** `canonical.get(id) ?? id`: ids outside the catalog stand for themselves. */
  function Canon(cm: map<Id, Id>, id: Id): Id {
    if id in cm then cm[id] else id
  }

  /** The id `k` merge steps from `x`, staying put once the pointers run out. */
  function Chain(m: map<Id, Tag>, x: Id, k: nat): Id
    decreases k
  {
    if k == 0 then x
    else match Next(m, x)
      case None => x
      case Some(y) => Chain(m, y, k - 1)
  }

  lemma {:induction false} ChainAdd(m: map<Id, Tag>, x: Id, a: nat, b: nat)
    ensures Chain(m, x, a + b) == Chain(m, Chain(m, x, a), b)
    decreases a
  {
    if a > 0 && Next(m, x).Some? {
      ChainAdd(m, Next(m, x).value, a - 1, b);
    }
  }

  /** Step `n + 1` is one merge step from step `n`. */
  lemma ChainStep(m: map<Id, Tag>, x: Id, n: nat)
    ensures Next(m, Chain(m, x, n)).Some? ==> Chain(m, x, n + 1) == Next(m, Chain(m, x, n)).value
  {
    ChainAdd(m, x, n, 1);
  }

  /** Once the chain reaches a terminal id it stays there. */
  lemma TerminalSticks(m: map<Id, Tag>, x: Id, n: nat, j: nat)
    requires IsTerminal(m, Chain(m, x, n)) && n <= j
    ensures Chain(m, x, j) == Chain(m, x, n)
  {
    ChainAdd(m, x, n, j - n);
  }

  /** A chain that returns to an earlier id repeats the ids between the two visits forever. */
  lemma {:induction false} Periodic(m: map<Id, Tag>, x: Id, i: nat, n: nat, j: nat) returns (l: nat)
    requires i < n && Chain(m, x, n) == Chain(m, x, i) && i <= j
    ensures i <= l < n && Chain(m, x, j) == Chain(m, x, l)
    decreases j
  {
    if j < n {
      l := j;
    } else {
      ChainAdd(m, x, n, j - n);
      ChainAdd(m, x, i, j - n);
      l := Periodic(m, x, i, n, i + (j - n));
    }
  }

  /** The walk returns its start id or a terminal id reachable from where it is. */
  lemma {:induction false} WalkResult(m: map<Id, Tag>, start: Id, cur: Id, seen: set<Id>) returns (k: nat)
    requires seen <= m.Keys
    ensures var r := Walk(m, start, cur, seen);
      r == start || (IsTerminal(m, r) && Chain(m, cur, k) == r)
    decreases |m.Keys - seen|
  {
    if cur != "" && cur !in seen && Next(m, cur).Some? {
      var nxt := Next(m, cur).value;
      assert m.Keys - (seen + {cur}) < m.Keys - seen;
      var k' := WalkResult(m, start, nxt, seen + {cur});
      k := k' + 1;
    } else {
      k := 0;
    }
  }

  /** The first `n` ids of the chain from `x`. */
  function Visited(m: map<Id, Tag>, x: Id, n: nat): set<Id> {
    if n == 0 then {} else Visited(m, x, n - 1) + {Chain(m, x, n - 1)}
  }

  lemma {:induction false} VisitedIndex(m: map<Id, Tag>, x: Id, n: nat, y: Id) returns (i: nat)
    requires y in Visited(m, x, n)
    ensures i < n && Chain(m, x, i) == y
  {
    if y == Chain(m, x, n - 1) {
      i := n - 1;
    } else {
      i := VisitedIndex(m, x, n - 1, y);
    }
  }

  /** A visited id that returns reaches no terminal id later on. */
  lemma RevisitNeverTerminates(m: map<Id, Tag>, x: Id, n: nat, K: nat)
    requires Chain(m, x, n) in Visited(m, x, n) && n <= K
    requires forall i :: 0 <= i < n ==> !IsTerminal(m, Chain(m, x, i))
    ensures !IsTerminal(m, Chain(m, x, K))
  {
    var i := VisitedIndex(m, x, n, Chain(m, x, n));
    var l := Periodic(m, x, i, n, K);
  }

  /** Started at `start`, with the first `n` chain ids visited and none of them terminal,
      the walk returns the terminal id the chain reaches. */
  lemma {:induction false} WalkReaches(m: map<Id, Tag>, start: Id, n: nat, K: nat)
    requires start != "" && Visited(m, start, n) <= m.Keys
    requires forall i :: 0 <= i < n ==> !IsTerminal(m, Chain(m, start, i))
    requires IsTerminal(m, Chain(m, start, K))
    ensures Walk(m, start, Chain(m, start, n), Visited(m, start, n)) == Chain(m, start, K)
    decreases |m.Keys - Visited(m, start, n)|
  {
    var cur := Chain(m, start, n);
    var seen := Visited(m, start, n);
    assert cur != "" by {
      if n > 0 {
        ChainStep(m, start, n - 1);
      }
    }
    assert n <= K;
    if cur in seen {
      RevisitNeverTerminates(m, start, n, K);
      assert false;
    } else if Next(m, cur).None? {
      TerminalSticks(m, start, n, K);
    } else {
      ChainStep(m, start, n);
      assert Visited(m, start, n + 1) == seen + {cur};
      assert m.Keys - (seen + {cur}) < m.Keys - seen;
      WalkReaches(m, start, n + 1, K);
    }
  }

  /** A merge chain that reaches a terminal id resolves to it. */
  lemma ResolveReachesTerminal(m: map<Id, Tag>, x: Id, K: nat)
    requires x != "" && IsTerminal(m, Chain(m, x, K))
    ensures Resolve(m, x) == Chain(m, x, K)
  {
    WalkReaches(m, x, 0, K);
  }

  /** A merge chain that never reaches a terminal id (it runs into a cycle) resolves to its start. */
  lemma ResolveCycleFallback(m: map<Id, Tag>, x: Id)
    requires forall k :: !IsTerminal(m, Chain(m, x, k))
    ensures Resolve(m, x) == x
  {
    var k := WalkResult(m, x, x, {});
  }

  /** The resolved id is the start id or a terminal id. */
  lemma ResolveOutcome(m: map<Id, Tag>, x: Id)
    ensures Resolve(m, x) == x || IsTerminal(m, Resolve(m, x))
  {
    var k := WalkResult(m, x, x, {});
  }

  // ---- Properties of the canonical map ----

  /** Canonicalization follows merge pointers to the terminal id when there is one. */
  lemma CanonFollowsMerges(tags: seq<Tag>, x: Id, K: nat)
    requires x != ""
    requires IsTerminal(ById(tags), Chain(ById(tags), x, K))
    ensures Canon(BuildCanonicalMap(tags), x) == Chain(ById(tags), x, K)
  {
    var m := ById(tags);
    if x in m {
      ResolveReachesTerminal(m, x, K);
    } else {
      TerminalSticks(m, x, 0, K);
    }
  }

  /** An id whose merge walk never ends (it revisits an id) canonicalizes to itself. */
  lemma CanonCycleFallback(tags: seq<Tag>, x: Id)
    requires forall k :: !IsTerminal(ById(tags), Chain(ById(tags), x, k))
    ensures Canon(BuildCanonicalMap(tags), x) == x
  {
    if x in ById(tags) {
      ResolveCycleFallback(ById(tags), x);
    }
  }

  /** Every id on a merge cycle canonicalizes to itself. */
  lemma CanonOnCycle(tags: seq<Tag>, x: Id, p: nat)
    requires p > 0 && Chain(ById(tags), x, p) == x
    ensures Canon(BuildCanonicalMap(tags), x) == x
  {
    var m := ById(tags);
    if x in m && x != "" {
      if K :| IsTerminal(m, Chain(m, x, K)) {
        var l := Periodic(m, x, 0, p, K);
        TerminalSticks(m, x, l, p);
        ResolveReachesTerminal(m, x, K);
      } else {
        ResolveCycleFallback(m, x);
      }
    }
  }

  /** A tag whose `canonicalTagId` is absent, empty or itself canonicalizes to itself; so
      does an id no tag carries. */
  lemma CanonOfUnmerged(tags: seq<Tag>, x: Id)
    requires forall t :: t in tags && t.id == x ==>
      t.canonicalTagId.None? || t.canonicalTagId == Some("") || t.canonicalTagId == Some(x)
    ensures Canon(BuildCanonicalMap(tags), x) == x
  {
    var m := ById(tags);
    if x in m {
      assert IsTerminal(m, x);
      ResolveOutcome(m, x);
    }
  }

  /** A tag merged into an id that no tag carries canonicalizes to that missing id. */
  lemma CanonOfDangling(tags: seq<Tag>, x: Id, y: Id)
    requires x != "" && y != "" && y != x
    requires exists t :: t in tags && t.id == x
    requires forall t :: t in tags && t.id == x ==> t.canonicalTagId == Some(y)
    requires forall t :: t in tags ==> t.id != y
    ensures Canon(BuildCanonicalMap(tags), x) == y
  {
    var m := ById(tags);
    assert x in m;
    assert Next(m, x) == Some(y);
    assert y !in m;
    assert Chain(m, x, 1) == y;
    ResolveReachesTerminal(m, x, 1);
  }

  /** Canonicalizing twice is canonicalizing once, for every id. */
  lemma CanonIdempotent(tags: seq<Tag>, x: Id)
    ensures Canon(BuildCanonicalMap(tags), Canon(BuildCanonicalMap(tags), x)) == Canon(BuildCanonicalMap(tags), x)
  {
    var m := ById(tags);
    var cm := BuildCanonicalMap(tags);
    var r := Canon(cm, x);
    if x in cm && r != x {
      ResolveOutcome(m, x);
      assert IsTerminal(m, r);
      if r in cm {
        assert Resolve(m, r) == r;
      }
    }
  }
}
