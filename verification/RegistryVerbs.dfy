/** What each adjudication verb does, and what takes it back. */
module RegistryVerbs {
  import opened Ordering
  import opened Tombstones
  import opened Registries
  import opened RegistryLedger
  import opened RegistryHistory

  /** An entity of the kind that was not merged away. */
  predicate Standing(l: Ledger, kind: string, id: string) {
    id in l.entities && l.entities[id].kind == kind && l.entities[id].mergedInto.None?
  }

  /** A merge between two standing entities tombstones the loser, and touches nothing else;
      any other is refused and touches nothing at all. */
  lemma MergeMeans(l: Ledger, kind: string, loser: string, survivor: string)
    ensures var ok := loser != survivor && Standing(l, kind, loser) && Standing(l, kind, survivor);
            var next := After(l, Merge(kind, loser, survivor));
            && (Allowed(l, Merge(kind, loser, survivor)) <==> ok)
            && next.keys == l.keys && next.entities.Keys == l.entities.Keys
            && forall id :: id in l.entities ==>
                 next.entities[id] == if ok && id == loser then Entity(kind, Some(survivor)) else l.entities[id]
  {
  }

  /** An unmerge stands a tombstoned entity up again. */
  lemma UnmergeMeans(l: Ledger, kind: string, entity: string)
    ensures var ok := entity in l.entities && l.entities[entity].kind == kind && l.entities[entity].mergedInto.Some?;
            var next := After(l, Unmerge(kind, entity));
            && (Allowed(l, Unmerge(kind, entity)) <==> ok)
            && next.keys == l.keys && next.entities.Keys == l.entities.Keys
            && forall id :: id in l.entities ==>
                 next.entities[id] == if ok && id == entity then Entity(kind, None) else l.entities[id]
  {
  }

  /** A move binds a registered key to a standing entity. */
  lemma MoveMeans(l: Ledger, kind: string, natural: string, to: string)
    ensures var ok := Standing(l, kind, to) && Key(kind, natural) in l.keys;
            var next := After(l, Move(kind, natural, to));
            && (Allowed(l, Move(kind, natural, to)) <==> ok)
            && next.entities == l.entities && next.keys.Keys == l.keys.Keys
            && forall k :: k in l.keys ==> next.keys[k] == if ok && k == Key(kind, natural) then to else l.keys[k]
  {
  }

  /** An unmerge takes a merge back, to the letter. */
  lemma UnmergeUndoesMerge(l: Ledger, kind: string, loser: string, survivor: string)
    requires loser != survivor && Standing(l, kind, loser) && Standing(l, kind, survivor)
    ensures After(After(l, Merge(kind, loser, survivor)), Unmerge(kind, loser)) == l
  {
    var back := After(After(l, Merge(kind, loser, survivor)), Unmerge(kind, loser));
    assert back.entities == l.entities;
  }

  /** And a move back takes a move back, if what the key was bound to stands. */
  lemma MoveBackUndoesMove(l: Ledger, kind: string, natural: string, to: string)
    requires Standing(l, kind, to) && Key(kind, natural) in l.keys && Standing(l, kind, l.keys[Key(kind, natural)])
    ensures After(After(l, Move(kind, natural, to)), Move(kind, natural, l.keys[Key(kind, natural)])) == l
  {
    var back := After(After(l, Move(kind, natural, to)), Move(kind, natural, l.keys[Key(kind, natural)]));
    assert back.keys == l.keys;
  }

  lemma EndIsResolved(m: Merges, x: string, n: nat)
    requires Walk(m, x, n) !in m
    ensures Resolve(m, x) == Walk(m, x, n)
  {
    ResolvesToSurvivor(m, x);
  }

  /** A merge redirects what resolved to the loser, to the survivor, and nothing else. */
  lemma MergeRedirects(l: Ledger, kind: string, loser: string, survivor: string, x: string)
    requires Coherent(l) && loser != survivor && Standing(l, kind, loser) && Standing(l, kind, survivor)
    ensures var before := Resolve(l.MergeMap(kind), x);
            Resolve(After(l, Merge(kind, loser, survivor)).MergeMap(kind), x) == if before == loser then survivor else before
  {
    var m := l.MergeMap(kind);
    MapsAfter(l, Merge(kind, loser, survivor), kind);
    assert AllEnd(m) && Ends(m, x);
    assert loser !in m && survivor !in m;
    hide Coherent, Resolve, Ledger.MergeMap, After;
    RedirectsAt(m, loser, survivor, x);
  }

  lemma RedirectsAt(m: Merges, loser: string, survivor: string, x: string)
    requires Ends(m, x) && loser != survivor && loser !in m && survivor !in m
    ensures Resolve(m[loser := survivor], x) == if Resolve(m, x) == loser then survivor else Resolve(m, x)
  {
    hide Resolve;
    var w := m[loser := survivor];
    var n: nat :| Walk(m, x, n) !in m;
    var k := FirstEnd(m, x, n);
    SameWalk(m, w, x, k);
    EndIsResolved(m, x, k);
    if Walk(m, x, k) == loser {
      assert Walk(w, x, k + 1) == survivor;
      EndIsResolved(w, x, k + 1);
    } else {
      EndIsResolved(w, x, k);
    }
  }
}
