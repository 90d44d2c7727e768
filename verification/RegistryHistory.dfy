/** Whole histories of the registry: registrations and human adjudications, in any order. */
module RegistryHistory {
  import opened Ordering
  import opened Tombstones
  import opened Registries
  import opened RegistryLedger

  predicate Live(l: Ledger, kind: string, id: string) {
    id in l.entities && l.entities[id] == Entity(kind, None)
  }

  predicate Tombstoned(l: Ledger, kind: string, id: string) {
    id in l.entities && l.entities[id].kind == kind && l.entities[id].mergedInto.Some?
  }

  /** What the registrar and the adjudication verbs do. */
  datatype Step =
    | Propose(kind: string, cluster: set<string>, id: string)
    | Merge(kind: string, loser: string, survivor: string)
    | Unmerge(kind: string, entity: string)
    | Move(kind: string, natural: string, to: string)

  /** The verb's own guard; new ids are new. */
  predicate Allowed(l: Ledger, step: Step) {
    match step
    case Propose(_, _, id) => id !in l.entities
    case Merge(kind, loser, survivor) => loser != survivor && Live(l, kind, loser) && Live(l, kind, survivor)
    case Unmerge(kind, entity) => Tombstoned(l, kind, entity)
    case Move(kind, natural, to) => Live(l, kind, to) && Key(kind, natural) in l.keys
  }

  function After(l: Ledger, step: Step): Ledger {
    if !Allowed(l, step) then l
    else
      match step
      case Propose(kind, cluster, id) => Registered(l, kind, cluster, id)
      case Merge(kind, loser, survivor) => l.(entities := l.entities[loser := Entity(kind, Some(survivor))])
      case Unmerge(kind, entity) => l.(entities := l.entities[entity := Entity(kind, None)])
      case Move(kind, natural, to) => l.(keys := l.keys[Key(kind, natural) := to])
  }

  // ----- The verbs

  /** `adjudicate_merge`, refused unless both are live entities of the kind. */
  method AdjudicateMerge(tables: RegistryTables, kind: string, loser: string, survivor: string) returns (ok: bool)
    modifies tables
    ensures ok <==> Allowed(old(tables.State()), Merge(kind, loser, survivor))
    ensures tables.State() == After(old(tables.State()), Merge(kind, loser, survivor))
  {
    if loser == survivor { return false; }
    if loser !in tables.entities || tables.entities[loser].kind != kind { return false; }
    if survivor !in tables.entities || tables.entities[survivor].kind != kind { return false; }
    if tables.entities[survivor].mergedInto.Some? { return false; }
    if tables.entities[loser].mergedInto.Some? { return false; }
    tables.entities := tables.entities[loser := tables.entities[loser].(mergedInto := Some(survivor))];
    return true;
  }

  /** `adjudicate_unmerge`. */
  method AdjudicateUnmerge(tables: RegistryTables, kind: string, entity: string) returns (ok: bool)
    modifies tables
    ensures ok <==> Allowed(old(tables.State()), Unmerge(kind, entity))
    ensures tables.State() == After(old(tables.State()), Unmerge(kind, entity))
  {
    if entity !in tables.entities || tables.entities[entity].kind != kind { return false; }
    if tables.entities[entity].mergedInto.None? { return false; }
    tables.entities := tables.entities[entity := tables.entities[entity].(mergedInto := None)];
    return true;
  }

  /** `adjudicate_move`. */
  method AdjudicateMove(tables: RegistryTables, kind: string, natural: string, to: string) returns (ok: bool)
    modifies tables
    ensures ok <==> Allowed(old(tables.State()), Move(kind, natural, to))
    ensures tables.State() == After(old(tables.State()), Move(kind, natural, to))
  {
    if to !in tables.entities || tables.entities[to].kind != kind { return false; }
    if tables.entities[to].mergedInto.Some? { return false; }
    if Key(kind, natural) !in tables.keys { return false; }
    tables.keys := tables.keys[Key(kind, natural) := to];
    return true;
  }

  // ----- Tombstones never cycle

  ghost predicate AllEnd(m: Merges) { forall x :: Ends(m, x) }

  lemma {:induction false} SameWalk(m: Merges, w: Merges, x: string, n: nat)
    requires forall i :: 0 <= i < n ==> Walk(m, x, i) in m && Walk(m, x, i) in w && w[Walk(m, x, i)] == m[Walk(m, x, i)]
    ensures Walk(w, x, n) == Walk(m, x, n)
  {
    if n > 0 { SameWalk(m, w, x, n - 1); }
  }

  lemma {:induction false} FirstEnd(m: Merges, x: string, n: nat) returns (k: nat)
    requires Walk(m, x, n) !in m
    ensures Walk(m, x, k) !in m && forall i :: 0 <= i < k ==> Walk(m, x, i) in m
  {
    k := n;
    if i :| 0 <= i < n && Walk(m, x, i) !in m { k := FirstEnd(m, x, i); }
  }

  /** Merging one live entity into another only lengthens the chains that ended at it. */
  lemma MergingKeepsEnds(m: Merges, loser: string, survivor: string)
    requires AllEnd(m) && loser != survivor && loser !in m && survivor !in m
    ensures AllEnd(m[loser := survivor])
  {
    var w := m[loser := survivor];
    forall x ensures Ends(w, x) {
      assert Ends(m, x);
      var n: nat :| Walk(m, x, n) !in m;
      var k := FirstEnd(m, x, n);
      SameWalk(m, w, x, k);
      if Walk(m, x, k) == loser { assert Walk(w, x, k + 1) == survivor; }
    }
  }

  lemma UnmergingKeepsEnds(m: Merges, entity: string)
    requires AllEnd(m)
    ensures AllEnd(m - {entity})
  {
    var w := m - {entity};
    forall x ensures Ends(w, x) {
      assert Ends(m, x);
      var n: nat :| Walk(m, x, n) !in m;
      var k := FirstEnd(m, x, n);
      if i :| 0 <= i < k && Walk(m, x, i) == entity {
        var j := FirstVisit(m, x, entity, i);
        SameWalk(m, w, x, j);
      } else {
        SameWalk(m, w, x, k);
      }
    }
  }

  lemma {:induction false} FirstVisit(m: Merges, x: string, y: string, n: nat) returns (k: nat)
    requires Walk(m, x, n) == y
    ensures k <= n && Walk(m, x, k) == y && forall i :: 0 <= i < k ==> Walk(m, x, i) != y
  {
    k := n;
    if i :| 0 <= i < n && Walk(m, x, i) == y { k := FirstVisit(m, x, y, i); }
  }

  // ----- What every history keeps

  /** Keys are bound, and entities merged, within their kind, and every chain ends. */
  ghost predicate Coherent(l: Ledger) {
    && l.Valid()
    && (forall k :: k in l.keys ==> l.entities[l.keys[k]].kind == k.kind)
    && (forall id :: id in l.entities && l.entities[id].mergedInto.Some? ==> l.entities[l.entities[id].mergedInto.value].kind == l.entities[id].kind)
    && forall kind :: AllEnd(l.MergeMap(kind))
  }

  lemma EmptyIsCoherent()
    ensures Coherent(Ledger(map[], map[]))
  {
    forall kind ensures AllEnd(Ledger(map[], map[]).MergeMap(kind)) {
      forall x ensures Ends(Ledger(map[], map[]).MergeMap(kind), x) { assert Walk(Ledger(map[], map[]).MergeMap(kind), x, 0) == x; }
    }
  }

  lemma {:induction false} WalkKeepsKind(l: Ledger, kind: string, id: string, n: nat)
    requires Coherent(l) && id in l.entities && l.entities[id].kind == kind
    ensures Walk(l.MergeMap(kind), id, n) in l.entities && l.entities[Walk(l.MergeMap(kind), id, n)].kind == kind
  {
    hide AllEnd;
    if n > 0 { WalkKeepsKind(l, kind, id, n - 1); }
  }

  /** In a coherent ledger every entity resolves to a live one of its kind. */
  lemma ResolvesToLive(l: Ledger, kind: string, id: string)
    requires Coherent(l) && id in l.entities && l.entities[id].kind == kind
    ensures Live(l, kind, Resolve(l.MergeMap(kind), id))
  {
    var m := l.MergeMap(kind);
    ResolvesToSurvivor(m, id);
    var n := StoppingPoint(m, id);
    WalkKeepsKind(l, kind, id, n);
    hide Resolve, Walk;
    assert AllEnd(m) && Ends(m, id);
    assert Resolve(m, id) !in m;
  }

  lemma ProposedBindsLive(l: Ledger, kind: string, cluster: set<string>, id: string)
    requires Coherent(l) && id !in l.entities && !Decide(cluster, l.View(kind)).Conflict?
    ensures Live(Registered(l, kind, cluster, id), kind, EntityOf(l, kind, cluster, id))
  {
    hide Decide, Resolve, AllEnd;
    var d, e := Decide(cluster, l.View(kind)), EntityOf(l, kind, cluster, id);
    RegisteringIsSticky(l, kind, cluster, id);
    DecideMeans(cluster, l.View(kind));
    if d.Append? || d.Noop? {
      var k :| k in cluster && k in l.View(kind) && l.View(kind)[k] == d.entity;
      ViewAt(l, kind);
      ResolvesToLive(l, kind, l.keys[Key(kind, k)]);
    } else {
      assert id in Registered(l, kind, cluster, id).entities by { AppliedIs(l, kind, cluster, id); }
    }
  }

  lemma ProposingKeepsCoherent(l: Ledger, kind: string, cluster: set<string>, id: string)
    requires Coherent(l) && id !in l.entities
    ensures Coherent(Registered(l, kind, cluster, id))
  {
    hide Decide, Resolve, AllEnd, Registered, EntityOf, Ledger.View, Ledger.MergeMap;
    var t := Registered(l, kind, cluster, id);
    RegisteringIsSticky(l, kind, cluster, id);
    if !Decide(cluster, l.View(kind)).Conflict? { ProposedBindsLive(l, kind, cluster, id); }
    forall other ensures AllEnd(t.MergeMap(other)) { SameMerges(l, kind, cluster, id, other); }
  }

  /** What a merge or an unmerge does to the merge maps. */
  lemma MapsAfter(l: Ledger, step: Step, kind: string)
    requires Allowed(l, step)
    ensures step.Merge? ==>
              After(l, step).MergeMap(kind) == if kind == step.kind then l.MergeMap(kind)[step.loser := step.survivor] else l.MergeMap(kind)
    ensures step.Unmerge? ==>
              After(l, step).MergeMap(kind) == if kind == step.kind then l.MergeMap(kind) - {step.entity} else l.MergeMap(kind)
  {
  }

  lemma MergingKeepsCoherent(l: Ledger, step: Step)
    requires Coherent(l) && Allowed(l, step) && (step.Merge? || step.Unmerge?)
    ensures Coherent(After(l, step))
  {
    var t := After(l, step);
    if step.Merge? {
      assert step.loser !in l.MergeMap(step.kind) && step.survivor !in l.MergeMap(step.kind);
    }
    hide AllEnd, Ledger.MergeMap;
    forall kind ensures AllEnd(t.MergeMap(kind)) {
      MapsAfter(l, step, kind);
      if kind == step.kind {
        if step.Merge? {
          MergingKeepsEnds(l.MergeMap(kind), step.loser, step.survivor);
        } else {
          UnmergingKeepsEnds(l.MergeMap(kind), step.entity);
        }
      }
    }
  }

  lemma StepKeepsCoherent(l: Ledger, step: Step)
    requires Coherent(l)
    ensures Coherent(After(l, step))
  {
    hide AllEnd, Registered;
    if Allowed(l, step) {
      match step
      case Propose(kind, cluster, id) => ProposingKeepsCoherent(l, kind, cluster, id);
      case Merge(_, _, _) => MergingKeepsCoherent(l, step);
      case Unmerge(_, _) => MergingKeepsCoherent(l, step);
      case Move(_, _, _) =>
        var t := After(l, step);
        assert forall kind :: t.MergeMap(kind) == l.MergeMap(kind);
    }
  }

  // ----- Histories

  ghost predicate History(ledgers: seq<Ledger>, steps: seq<Step>) {
    && |ledgers| == |steps| + 1
    && forall i :: 0 <= i < |steps| ==> ledgers[i + 1] == After(ledgers[i], steps[i])
  }

  lemma {:induction false} HistoryKeepsCoherent(ledgers: seq<Ledger>, steps: seq<Step>, i: nat)
    requires History(ledgers, steps) && Coherent(ledgers[0]) && i < |ledgers|
    ensures Coherent(ledgers[i])
  {
    hide Coherent, After;
    if i > 0 {
      HistoryKeepsCoherent(ledgers, steps, i - 1);
      StepKeepsCoherent(ledgers[i - 1], steps[i - 1]);
    }
  }

  ghost predicate SettledOn(l: Ledger, t: Ledger, kind: string, cluster: set<string>, e: string) {
    && Live(t, kind, e)
    && (forall n :: n in cluster ==> n in t.View(kind) && t.View(kind)[n] == e)
    && (forall k :: k in t.keys && k !in l.keys ==> t.keys[k] == e)
  }

  ghost predicate Settled(l: Ledger, t: Ledger, kind: string, cluster: set<string>) {
    exists e :: SettledOn(l, t, kind, cluster, e)
  }

  /** Whenever in a history a cluster is registered without conflict, its keys all resolve
      to one live entity, and every key it added is bound to that entity itself. */
  lemma RegisteredKeysAreLive(ledgers: seq<Ledger>, steps: seq<Step>, i: nat)
    requires History(ledgers, steps) && Coherent(ledgers[0]) && i < |steps| && steps[i].Propose? && Allowed(ledgers[i], steps[i])
    requires !Decide(steps[i].cluster, ledgers[i].View(steps[i].kind)).Conflict?
    ensures Settled(ledgers[i], ledgers[i + 1], steps[i].kind, steps[i].cluster)
  {
    HistoryKeepsCoherent(ledgers, steps, i);
    hide Decide, Resolve, Registered, Coherent, Settled;
    ProposingSettles(ledgers[i], steps[i].kind, steps[i].cluster, steps[i].id);
  }

  lemma ProposingSettles(l: Ledger, kind: string, cluster: set<string>, id: string)
    requires Coherent(l) && id !in l.entities && !Decide(cluster, l.View(kind)).Conflict?
    ensures Settled(l, Registered(l, kind, cluster, id), kind, cluster)
  {
    hide Decide, Resolve, Registered, AllEnd, EntityOf, Live, Ledger.View;
    ProposedBindsLive(l, kind, cluster, id);
    assert l.Valid();
    hide Coherent, Ledger.Valid;
    ClusterIsSettled(l, kind, cluster, id);
    RegisteringIsSticky(l, kind, cluster, id);
    assert SettledOn(l, Registered(l, kind, cluster, id), kind, cluster, EntityOf(l, kind, cluster, id));
  }

  /** Some step in between moved the key. */
  ghost predicate MovedBetween(ledgers: seq<Ledger>, steps: seq<Step>, i: nat, j: nat, k: Key)
    requires |ledgers| == |steps| + 1 && j <= |steps|
  {
    exists s :: i <= s < j && steps[s].Move? && Allowed(ledgers[s], steps[s]) && Key(steps[s].kind, steps[s].natural) == k
  }

  lemma StepIsSticky(l: Ledger, step: Step, k: Key)
    requires Coherent(l) && k in l.keys
    ensures k in After(l, step).keys
    ensures After(l, step).keys[k] == l.keys[k] || (step.Move? && Allowed(l, step) && Key(step.kind, step.natural) == k)
  {
    hide AllEnd, Registered, Resolve;
    if step.Propose? && Allowed(l, step) { RegisteringIsSticky(l, step.kind, step.cluster, step.id); }
  }

  /** Membership never decays and bindings stick: a key once registered stays registered,
      to the same entity unless an adjudicated move re-pointed it. */
  lemma {:induction false} BindingsStick(ledgers: seq<Ledger>, steps: seq<Step>, i: nat, j: nat, k: Key)
    requires History(ledgers, steps) && Coherent(ledgers[0]) && i <= j < |ledgers| && k in ledgers[i].keys
    ensures k in ledgers[j].keys
    ensures ledgers[j].keys[k] == ledgers[i].keys[k] || MovedBetween(ledgers, steps, i, j, k)
    decreases j - i
  {
    hide Coherent, After, Allowed;
    if i < j {
      BindingsStick(ledgers, steps, i, j - 1, k);
      HistoryKeepsCoherent(ledgers, steps, j - 1);
      StepIsSticky(ledgers[j - 1], steps[j - 1], k);
    }
  }
}
