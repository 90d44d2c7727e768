/** Following the tombstones that merges leave, chains that run into a cycle included. */
module Tombstones {
  import opened Ordering

  type Merges = map<string, string>

  /** The entity n tombstones further on, or the survivor the chain ended at before. */
  function Walk(m: Merges, x: string, n: nat): string {
    if n == 0 then x
    else
      var y := Walk(m, x, n - 1);
      if y in m then m[y] else y
  }

  /** The chain comes to an entity that was not merged away. */
  ghost predicate Ends(m: Merges, x: string) { exists n: nat :: Walk(m, x, n) !in m }

  ghost predicate OnCycle(m: Merges, x: string) { x in m && exists n: nat :: n > 0 && Walk(m, x, n) == x }

  /** The walk with its memory of what it has seen. */
  function ResolveFrom(m: Merges, x: string, seen: set<string>): string
    decreases m.Keys - seen
  {
    if x in m && x !in seen then ResolveFrom(m, m[x], seen + {x}) else x
  }

  function Resolve(m: Merges, x: string): string { ResolveFrom(m, x, {}) }

  /** `resolve_merged`. */
  method ResolveMerged(merges: Merges, entity: string) returns (survivor: string)
    ensures survivor == Resolve(merges, entity)
  {
    var seen: set<string> := {};
    survivor := entity;
    while survivor in merges && survivor !in seen
      invariant ResolveFrom(merges, survivor, seen) == Resolve(merges, entity)
      decreases merges.Keys - seen
    {
      seen := seen + {survivor};
      survivor := merges[survivor];
    }
  }

  // ----- Where it stops

  /** The chain's first n entities are merged away, and different. */
  ghost predicate Fresh(m: Merges, x: string, n: nat) {
    && (forall i :: 0 <= i < n ==> Walk(m, x, i) in m)
    && (forall i, j :: 0 <= i < j < n ==> Walk(m, x, i) != Walk(m, x, j))
  }

  function Seen(m: Merges, x: string, k: nat): set<string> { set i | 0 <= i < k :: Walk(m, x, i) }

  /** Stopping at n: a survivor, or an entity met before. */
  ghost predicate Stops(m: Merges, x: string, n: nat) {
    Fresh(m, x, n) && (Walk(m, x, n) !in m || exists i :: 0 <= i < n && Walk(m, x, i) == Walk(m, x, n))
  }

  lemma {:induction false} StopsThere(m: Merges, x: string, n: nat, k: nat)
    requires Stops(m, x, n) && k <= n
    ensures ResolveFrom(m, Walk(m, x, k), Seen(m, x, k)) == Walk(m, x, n)
    decreases n - k
  {
    if k < n {
      assert Walk(m, x, k) in m && Walk(m, x, k) !in Seen(m, x, k);
      assert Seen(m, x, k) + {Walk(m, x, k)} == Seen(m, x, k + 1) by { SeenGrows(m, x, k); }
      StopsThere(m, x, n, k + 1);
    } else if Walk(m, x, n) in m {
      var i :| 0 <= i < n && Walk(m, x, i) == Walk(m, x, n);
      assert Walk(m, x, n) in Seen(m, x, n);
    }
  }

  lemma SeenGrows(m: Merges, x: string, k: nat)
    ensures Seen(m, x, k + 1) == Seen(m, x, k) + {Walk(m, x, k)}
  {
    forall y ensures y in Seen(m, x, k + 1) <==> y in Seen(m, x, k) + {Walk(m, x, k)} {
      if y in Seen(m, x, k + 1) {
        var i :| 0 <= i < k + 1 && Walk(m, x, i) == y;
        assert i < k ==> y in Seen(m, x, k);
      }
      if y == Walk(m, x, k) { assert 0 <= k < k + 1; }
    }
  }

  lemma {:induction false} SeenIsLarge(m: Merges, x: string, n: nat)
    requires Fresh(m, x, n)
    ensures |Seen(m, x, n)| == n && Seen(m, x, n) <= m.Keys
    decreases n
  {
    hide Walk, Seen, Fresh;
    if n > 0 {
      NotSeenYet(m, x, n - 1);
      SeenIsLarge(m, x, n - 1);
      SeenGrows(m, x, n - 1);
    } else {
      NothingSeen(m, x);
    }
  }

  lemma NothingSeen(m: Merges, x: string)
    ensures Seen(m, x, 0) == {}
  {
  }

  lemma NotSeenYet(m: Merges, x: string, n: nat)
    requires Fresh(m, x, n + 1)
    ensures Walk(m, x, n) !in Seen(m, x, n) && Walk(m, x, n) in m && Fresh(m, x, n)
  {
    hide Walk;
  }

  lemma SubsetNoLarger(a: set<string>, b: set<string>)
    requires a <= b
    ensures |a| <= |b|
  {
    assert b == a + (b - a);
  }

  /** It does stop: the merge map has only so many entities to meet for the first time. */
  lemma {:induction false} ItStops(m: Merges, x: string, n: nat) returns (k: nat)
    requires Fresh(m, x, n)
    ensures n <= k && Stops(m, x, k)
    decreases |m.Keys| - n
  {
    SeenIsLarge(m, x, n);
    SubsetNoLarger(Seen(m, x, n), m.Keys);
    k := n;
    if !Stops(m, x, n) {
      assert Fresh(m, x, n + 1);
      SeenIsLarge(m, x, n + 1);
      SubsetNoLarger(Seen(m, x, n + 1), m.Keys);
      k := ItStops(m, x, n + 1);
    }
  }

  lemma StoppingPoint(m: Merges, x: string) returns (n: nat)
    ensures Stops(m, x, n) && Resolve(m, x) == Walk(m, x, n)
  {
    n := ItStops(m, x, 0);
    StopsThere(m, x, n, 0);
    assert Seen(m, x, 0) == {};
  }

  // ----- What it stops at

  lemma {:induction false} WalkAdds(m: Merges, x: string, i: nat, j: nat)
    ensures Walk(m, Walk(m, x, i), j) == Walk(m, x, i + j)
    decreases j
  {
    if j > 0 { WalkAdds(m, x, i, j - 1); }
  }

  lemma {:induction false} WalkStays(m: Merges, x: string, i: nat, j: nat)
    requires i <= j && Walk(m, x, i) !in m
    ensures Walk(m, x, j) == Walk(m, x, i)
    decreases j
  {
    if i < j { WalkStays(m, x, i, j - 1); }
  }

  /** Resolving what has been resolved changes nothing, also when the chain entered a
      cycle and the walk stopped somewhere on it. */
  lemma ResolveIsIdempotent(m: Merges, x: string)
    ensures Resolve(m, Resolve(m, x)) == Resolve(m, x)
  {
    var n := StoppingPoint(m, x);
    var r := Walk(m, x, n);
    if r in m {
      var i :| 0 <= i < n && Walk(m, x, i) == r;
      CycleStops(m, x, i, n);
      StopsThere(m, r, n - i, 0);
      assert Seen(m, r, 0) == {};
    }
  }

  lemma CycleStops(m: Merges, x: string, i: nat, n: nat)
    requires Fresh(m, x, n) && i < n && Walk(m, x, i) == Walk(m, x, n)
    ensures Stops(m, Walk(m, x, i), n - i) && Walk(m, Walk(m, x, i), n - i) == Walk(m, x, i)
  {
    var r := Walk(m, x, i);
    forall k | 0 <= k <= n - i ensures Walk(m, r, k) == Walk(m, x, i + k) { WalkAdds(m, x, i, k); }
    hide Walk;
    assert Walk(m, r, 0) == Walk(m, x, i);
  }

  /** The walk ends at an entity that was not merged away exactly when there is one to end
      at, and there is only one. */
  lemma ResolvesToSurvivor(m: Merges, x: string)
    ensures Resolve(m, x) !in m <==> Ends(m, x)
    ensures forall n: nat :: Walk(m, x, n) !in m ==> Walk(m, x, n) == Resolve(m, x)
  {
    var n := StoppingPoint(m, x);
    forall k: nat | Walk(m, x, k) !in m ensures Walk(m, x, k) == Walk(m, x, n) {
      if k <= n {
        WalkStays(m, x, k, n);
      } else if Walk(m, x, n) !in m {
        WalkStays(m, x, n, k);
      } else {
        var i :| 0 <= i < n && Walk(m, x, i) == Walk(m, x, n);
        CycleNeverEnds(m, x, i, n, k);
      }
    }
  }

  /** Once round a cycle, for ever round it. */
  lemma {:induction false} CycleNeverEnds(m: Merges, x: string, i: nat, n: nat, k: nat)
    requires Fresh(m, x, n) && i < n && Walk(m, x, i) == Walk(m, x, n)
    ensures Walk(m, x, k) in m
    decreases k
  {
    if k >= n {
      WalkAdds(m, x, i, k - n);
      WalkAdds(m, x, n, k - n);
      CycleNeverEnds(m, x, i, n, i + (k - n));
    }
  }

  lemma {:induction false} FirstReturn(m: Merges, x: string, n: nat) returns (k: nat)
    requires n > 0 && Walk(m, x, n) == x && x in m
    ensures 0 < k && Walk(m, x, k) == x && forall i :: 0 < i < k ==> Walk(m, x, i) != x
    decreases n
  {
    k := n;
    if i :| 0 < i < n && Walk(m, x, i) == x { k := FirstReturn(m, x, i); }
  }

  /** The walk comes back to where it started exactly on a cycle, or at a survivor. */
  lemma ResolvesToItself(m: Merges, x: string)
    ensures Resolve(m, x) == x <==> x !in m || OnCycle(m, x)
  {
    var n := StoppingPoint(m, x);
    if x in m {
      assert Walk(m, x, 0) == x;
      if OnCycle(m, x) {
        var p: nat :| p > 0 && Walk(m, x, p) == x;
        var k := FirstReturn(m, x, p);
        ReturnStops(m, x, k, n);
      }
    }
  }

  lemma ReturnStops(m: Merges, x: string, k: nat, n: nat)
    requires x in m && 0 < k && Walk(m, x, k) == x && (forall i :: 0 < i < k ==> Walk(m, x, i) != x)
    requires Stops(m, x, n)
    ensures Walk(m, x, n) == x
  {
    RoundAndRound(m, x, k);
    if n < k {
      if Walk(m, x, n) !in m {
        WalkStays(m, x, n, k);
        assert false;
      }
      var i :| 0 <= i < n && Walk(m, x, i) == Walk(m, x, n);
      WalkAdds(m, x, i, k - n);
      WalkAdds(m, x, n, k - n);
    }
  }

  lemma RoundAndRound(m: Merges, x: string, k: nat)
    requires 0 < k && Walk(m, x, k) == x && x in m
    ensures Walk(m, x, 0) == Walk(m, x, k)
  {
  }

  /** Every entity along a chain resolves alike, unless the chain starts on a cycle of more
      than one: then each entity of the cycle resolves to itself. */
  lemma SameAlongTheChain(m: Merges, x: string)
    requires x in m
    ensures Resolve(m, m[x]) == Resolve(m, x) <==> !OnCycle(m, x) || m[x] == x
  {
    if OnCycle(m, x) {
      ResolvesToItself(m, x);
      NextOnCycle(m, x);
      ResolvesToItself(m, m[x]);
    } else {
      var n := StoppingPoint(m, x);
      assert Walk(m, x, 0) == x;
      if n == 0 { assert false; }
      TailStops(m, x, n);
      StopsThere(m, m[x], n - 1, 0);
      assert Seen(m, m[x], 0) == {};
      WalkShift(m, x, n - 1);
    }
  }

  lemma {:induction false} WalkShift(m: Merges, x: string, n: nat)
    requires x in m
    ensures Walk(m, m[x], n) == Walk(m, x, n + 1)
  {
    if n > 0 { WalkShift(m, x, n - 1); }
  }

  lemma NextOnCycle(m: Merges, x: string)
    requires OnCycle(m, x)
    ensures OnCycle(m, m[x])
  {
    var n: nat :| n > 0 && Walk(m, x, n) == x;
    WalkShift(m, x, n);
    WalkShift(m, x, n - 1);
    assert Walk(m, m[x], n) == m[x];
    if m[x] !in m {
      WalkStays(m, m[x], 0, n - 1);
      assert false;
    }
  }

  lemma TailStops(m: Merges, x: string, n: nat)
    requires x in m && Stops(m, x, n) && n > 0 && !OnCycle(m, x)
    ensures Stops(m, m[x], n - 1)
  {
    forall i | 0 <= i <= n - 1 ensures Walk(m, m[x], i) == Walk(m, x, i + 1) { WalkShift(m, x, i); }
    if Walk(m, x, n) in m {
      var i :| 0 <= i < n && Walk(m, x, i) == Walk(m, x, n);
      assert i > 0;
      assert Walk(m, m[x], i - 1) == Walk(m, m[x], n - 1);
    }
  }
}
