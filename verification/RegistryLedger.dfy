/** The registry as a ledger: what deciding and applying keeps, the registrar's loop, and
    whole histories of registrations and adjudications. */
module RegistryLedger {
  import opened Ordering
  import opened Tombstones
  import opened Registries

  // ----- One decide-then-apply

  lemma ViewAt(l: Ledger, kind: string)
    ensures forall n :: n in l.View(kind) <==> Key(kind, n) in l.keys
    ensures forall n :: n in l.View(kind) ==> l.View(kind)[n] == Resolve(l.MergeMap(kind), l.keys[Key(kind, n)])
  {
    hide Resolve;
    InBindings(l, kind);
  }

  lemma {:induction false} WalkStaysInside(l: Ledger, kind: string, id: string, n: nat)
    requires l.Valid() && id in l.entities
    ensures Walk(l.MergeMap(kind), id, n) in l.entities
  {
    if n > 0 { WalkStaysInside(l, kind, id, n - 1); }
  }

  lemma ResolvesInside(l: Ledger, kind: string, id: string)
    requires l.Valid() && id in l.entities
    ensures Resolve(l.MergeMap(kind), id) in l.entities
  {
    var n := StoppingPoint(l.MergeMap(kind), id);
    WalkStaysInside(l, kind, id, n);
  }

  /** The entity a decision names has been resolved already. */
  lemma TargetIsResolved(l: Ledger, kind: string, cluster: set<string>)
    requires l.Valid()
    ensures var d := Decide(cluster, l.View(kind));
            d.Append? || d.Noop? ==> d.entity in l.entities && Resolve(l.MergeMap(kind), d.entity) == d.entity
  {
    hide Resolve, Decide;
    var d := Decide(cluster, l.View(kind));
    DecideMeans(cluster, l.View(kind));
    if d.Append? || d.Noop? {
      var k :| k in cluster && k in l.View(kind) && l.View(kind)[k] == d.entity;
      ViewAt(l, kind);
      ResolvesInside(l, kind, l.keys[Key(kind, k)]);
      ResolveIsIdempotent(l.MergeMap(kind), l.keys[Key(kind, k)]);
    }
  }

  /** With a fresh view and a new id no constraint is ever in the way. */
  lemma NeverRefused(l: Ledger, kind: string, cluster: set<string>, id: string)
    requires l.Valid() && id !in l.entities
    ensures var d := Decide(cluster, l.View(kind));
            d.Mint? || d.Append? ==> Writable(l, kind, d, id)
  {
    hide Resolve, Decide;
    DecideMeans(cluster, l.View(kind));
    TargetIsResolved(l, kind, cluster);
    ViewAt(l, kind);
  }

  /** Nothing that was in the tables is touched. */
  ghost predicate Sticks(l: Ledger, t: Ledger) {
    && (forall k :: k in l.keys ==> k in t.keys && t.keys[k] == l.keys[k])
    && (forall e :: e in l.entities ==> e in t.entities && t.entities[e] == l.entities[e])
  }

  lemma WritingSticks(l: Ledger, kind: string, d: Decision, id: string)
    requires l.Valid() && (d.Mint? || d.Append?) && Writable(l, kind, d, id)
    ensures var t := Written(l, kind, d, id);
            && t.Valid() && Sticks(l, t)
            && (forall k :: k in t.keys && k !in l.keys ==> k.kind == kind && k.natural in d.register && t.keys[k] == TargetOf(d, id))
            && (forall e :: e in t.entities && e !in l.entities ==> d.Mint? && e == id && t.entities[e] == Entity(kind, None))
  {
    var t := Written(l, kind, d, id);
    assert forall k :: k in t.keys <==> k in l.keys || (k.kind == kind && k.natural in d.register);
  }

  /** Sticky: entities and bindings there were stay as they were, new bindings are the
      cluster's unknown keys, and a conflict writes nothing. */
  lemma RegisteringIsSticky(l: Ledger, kind: string, cluster: set<string>, id: string)
    requires l.Valid() && id !in l.entities
    ensures var t := Registered(l, kind, cluster, id);
            && t.Valid() && Sticks(l, t)
            && (forall k :: k in t.keys && k !in l.keys ==> k.kind == kind && k.natural in cluster && t.keys[k] == EntityOf(l, kind, cluster, id))
            && (forall e :: e in t.entities && e !in l.entities ==> e == id && t.entities[e] == Entity(kind, None) && Decide(cluster, l.View(kind)).Mint?)
            && (Decide(cluster, l.View(kind)).Conflict? ==> t == l)
  {
    hide Resolve, Decide, Written, Writable;
    DecideMeans(cluster, l.View(kind));
    NeverRefused(l, kind, cluster, id);
    var d := Decide(cluster, l.View(kind));
    if d.Mint? || d.Append? { WritingSticks(l, kind, d, id); }
  }

  lemma SameMerges(l: Ledger, kind: string, cluster: set<string>, id: string, other: string)
    requires l.Valid() && id !in l.entities
    ensures Registered(l, kind, cluster, id).MergeMap(other) == l.MergeMap(other)
  {
    hide Decide, Resolve;
    RegisteringIsSticky(l, kind, cluster, id);
  }

  lemma TargetStaysPut(l: Ledger, kind: string, cluster: set<string>, id: string)
    requires l.Valid() && id !in l.entities && !Decide(cluster, l.View(kind)).Conflict?
    ensures Resolve(l.MergeMap(kind), EntityOf(l, kind, cluster, id)) == EntityOf(l, kind, cluster, id)
  {
    hide Decide;
    TargetIsResolved(l, kind, cluster);
    if Decide(cluster, l.View(kind)).Mint? { assert id !in l.MergeMap(kind); }
  }

  /** The view after registering is the view before, with the new keys at the cluster's
      entity: what the registrar writes into its running view is what a fresh one says. */
  lemma RunningViewIsFresh(l: Ledger, kind: string, cluster: set<string>, id: string)
    requires l.Valid() && id !in l.entities
    ensures var d := Decide(cluster, l.View(kind));
            var register := if d.Mint? || d.Append? then d.register else {};
            Registered(l, kind, cluster, id).View(kind) == l.View(kind) + map n | n in register :: EntityOf(l, kind, cluster, id)
  {
    hide Decide, Resolve;
    var t, d := Registered(l, kind, cluster, id), Decide(cluster, l.View(kind));
    var register := if d.Mint? || d.Append? then d.register else {};
    var e := EntityOf(l, kind, cluster, id);
    var after := l.View(kind) + map n | n in register :: e;
    SameMerges(l, kind, cluster, id, kind);
    if !d.Conflict? { TargetStaysPut(l, kind, cluster, id); }
    NeverRefused(l, kind, cluster, id);
    ViewAt(l, kind);
    forall n ensures n in after <==> Key(kind, n) in t.keys { RegisteredKey(l, kind, cluster, id, n); }
    forall n | n in after ensures after[n] == Resolve(t.MergeMap(kind), t.keys[Key(kind, n)]) {
      RegisteredKey(l, kind, cluster, id, n);
    }
    ViewIs(t, kind, after);
  }

  lemma RegisteredKey(l: Ledger, kind: string, cluster: set<string>, id: string, n: string)
    requires l.Valid() && id !in l.entities
    ensures var t, d := Registered(l, kind, cluster, id), Decide(cluster, l.View(kind));
            var k := Key(kind, n);
            && (k in t.keys <==> k in l.keys || ((d.Mint? || d.Append?) && n in d.register))
            && (k in l.keys ==> t.keys[k] == l.keys[k])
            && (k in t.keys && k !in l.keys ==> t.keys[k] == EntityOf(l, kind, cluster, id))
  {
    hide Decide, Resolve;
    RegisteringIsSticky(l, kind, cluster, id);
  }

  /** After any verdict but a conflict every key of the cluster resolves to one entity, the
      one returned, and deciding again has nothing to do: except that an empty cluster,
      which names nobody, mints every time. */
  lemma ClusterIsSettled(l: Ledger, kind: string, cluster: set<string>, id: string)
    requires l.Valid() && id !in l.entities && !Decide(cluster, l.View(kind)).Conflict?
    ensures var t, e := Registered(l, kind, cluster, id), EntityOf(l, kind, cluster, id);
            && e in t.entities
            && (forall n :: n in cluster ==> n in t.View(kind) && t.View(kind)[n] == e)
            && Decide(cluster, t.View(kind)) == if cluster == {} then Mint({}) else Noop(e)
  {
    hide Resolve;
    var t, e, d := Registered(l, kind, cluster, id), EntityOf(l, kind, cluster, id), Decide(cluster, l.View(kind));
    RunningViewIsFresh(l, kind, cluster, id);
    TargetIsResolved(l, kind, cluster);
    DecideMeans(cluster, l.View(kind));
    hide Decide;
    forall n | n in cluster ensures n in t.View(kind) && t.View(kind)[n] == e {
      if n !in l.View(kind) { assert n in d.register; }
    }
    AllAtOne(cluster, t.View(kind), e);
  }

  lemma AllAtOne(cluster: set<string>, view: map<string, string>, e: string)
    requires forall n :: n in cluster ==> n in view && view[n] == e
    ensures Decide(cluster, view) == if cluster == {} then Mint({}) else Noop(e)
  {
    DecideMeans(cluster, view);
    if cluster != {} {
      var n :| n in cluster;
      assert Decide(cluster, view).Noop?;
    } else {
      assert (set k | k in cluster && k !in view) == {};
    }
  }

  /** A new key is bound to a merged-away entity exactly when the cluster's known keys
      resolve into a cycle of tombstones. */
  lemma NewKeysBindLive(l: Ledger, kind: string, cluster: set<string>, id: string)
    requires l.Valid() && id !in l.entities && !Decide(cluster, l.View(kind)).Conflict?
    ensures var e := EntityOf(l, kind, cluster, id);
            e in Registered(l, kind, cluster, id).MergeMap(kind) <==> OnCycle(l.MergeMap(kind), e)
  {
    hide Decide, Resolve;
    SameMerges(l, kind, cluster, id, kind);
    TargetStaysPut(l, kind, cluster, id);
    ResolvesToItself(l.MergeMap(kind), EntityOf(l, kind, cluster, id));
  }

  // ----- The registrar

  datatype Summary = Summary(clusters: nat, minted: nat, appended: nat, noops: nat, conflicts: nat)

  /** One cluster after another, each decided on a fresh view. */
  function RegisteredAll(l: Ledger, kind: string, clusters: seq<set<string>>, ids: seq<string>): Ledger
    requires |clusters| == |ids|
    decreases |clusters|
  {
    if clusters == [] then l
    else
      var n := |clusters| - 1;
      Registered(RegisteredAll(l, kind, clusters[..n], ids[..n]), kind, clusters[n], ids[n])
  }

  /** New ids are new: each differs from every entity there is and from each other. */
  ghost predicate NewIds(ids: seq<string>, l: Ledger) {
    Distinct(ids) && forall i :: 0 <= i < |ids| ==> ids[i] !in l.entities
  }

  /** What holds from one cluster to the next. */
  ghost predicate Between(l: Ledger, before: Ledger, ids: seq<string>, i: nat)
    requires i <= |ids|
  {
    l.Valid() && forall e :: e in l.entities && e !in before.entities ==> e in ids[..i]
  }

  lemma StillNew(l: Ledger, before: Ledger, ids: seq<string>, i: nat)
    requires NewIds(ids, before) && i < |ids| && Between(l, before, ids, i)
    ensures ids[i] !in l.entities
  {
    assert ids[i] !in ids[..i];
  }

  lemma BetweenGoesOn(l: Ledger, before: Ledger, ids: seq<string>, i: nat, kind: string, cluster: set<string>)
    requires i < |ids| && Between(l, before, ids, i) && ids[i] !in l.entities
    ensures Between(Registered(l, kind, cluster, ids[i]), before, ids, i + 1)
  {
    hide Decide, Resolve;
    RegisteringIsSticky(l, kind, cluster, ids[i]);
    assert ids[..i + 1] == ids[..i] + [ids[i]];
  }

  function Counted(s: Summary, d: Decision): Summary {
    match d
    case Conflict(_) => s.(clusters := s.clusters + 1, conflicts := s.conflicts + 1)
    case Mint(_) => s.(clusters := s.clusters + 1, minted := s.minted + 1)
    case Append(_, _) => s.(clusters := s.clusters + 1, appended := s.appended + 1)
    case Noop(_) => s.(clusters := s.clusters + 1, noops := s.noops + 1)
  }

  /** How many clusters each row of the table decided, each on a fresh view. */
  function Tally(l: Ledger, kind: string, clusters: seq<set<string>>, ids: seq<string>): Summary
    requires |clusters| == |ids|
    decreases |clusters|
  {
    if clusters == [] then Summary(0, 0, 0, 0, 0)
    else
      var n := |clusters| - 1;
      Counted(Tally(l, kind, clusters[..n], ids[..n]),
              Decide(clusters[n], RegisteredAll(l, kind, clusters[..n], ids[..n]).View(kind)))
  }

  /** What the table says of cluster `i`, with the clusters before it registered. */
  function DecisionAt(l: Ledger, kind: string, clusters: seq<set<string>>, ids: seq<string>, i: nat): Decision
    requires |clusters| == |ids| && i < |clusters|
  {
    Decide(clusters[i], RegisteredAll(l, kind, clusters[..i], ids[..i]).View(kind))
  }

  /** The clusters with that verdict. */
  ghost function Decided(l: Ledger, kind: string, clusters: seq<set<string>>, ids: seq<string>, verdict: Decision -> bool): set<nat>
    requires |clusters| == |ids|
  {
    set i: nat | i < |clusters| && verdict(DecisionAt(l, kind, clusters, ids, i))
  }

  lemma DecidedAlike(l: Ledger, kind: string, clusters: seq<set<string>>, ids: seq<string>, n: nat, i: nat)
    requires |clusters| == |ids| && i < n <= |clusters|
    ensures DecisionAt(l, kind, clusters[..n], ids[..n], i) == DecisionAt(l, kind, clusters, ids, i)
  {
    hide Decide, RegisteredAll;
    assert clusters[..n][..i] == clusters[..i] && ids[..n][..i] == ids[..i];
  }

  lemma DecidedOneMore(l: Ledger, kind: string, clusters: seq<set<string>>, ids: seq<string>, verdict: Decision -> bool)
    requires |clusters| == |ids| && clusters != []
    ensures var n := |clusters| - 1;
            |Decided(l, kind, clusters, ids, verdict)|
            == |Decided(l, kind, clusters[..n], ids[..n], verdict)| + (if verdict(DecisionAt(l, kind, clusters, ids, n)) then 1 else 0)
  {
    hide DecisionAt;
    var n := |clusters| - 1;
    forall i: nat | i < n ensures DecisionAt(l, kind, clusters[..n], ids[..n], i) == DecisionAt(l, kind, clusters, ids, i) {
      DecidedAlike(l, kind, clusters, ids, n, i);
    }
    var all, fewer := Decided(l, kind, clusters, ids, verdict), Decided(l, kind, clusters[..n], ids[..n], verdict);
    assert n !in fewer;
    assert all == if verdict(DecisionAt(l, kind, clusters, ids, n)) then fewer + {n} else fewer;
  }

  /** Each counter is the number of clusters with its verdict. */
  lemma {:induction false} TallyCounts(l: Ledger, kind: string, clusters: seq<set<string>>, ids: seq<string>)
    requires |clusters| == |ids|
    ensures var s := Tally(l, kind, clusters, ids);
            && s.clusters == |clusters|
            && s.minted == |Decided(l, kind, clusters, ids, (d: Decision) => d.Mint?)|
            && s.appended == |Decided(l, kind, clusters, ids, (d: Decision) => d.Append?)|
            && s.noops == |Decided(l, kind, clusters, ids, (d: Decision) => d.Noop?)|
            && s.conflicts == |Decided(l, kind, clusters, ids, (d: Decision) => d.Conflict?)|
    decreases |clusters|
  {
    hide Decide, RegisteredAll, Decided;
    if clusters == [] {
      NoneDecided(l, kind, (d: Decision) => d.Mint?);
      NoneDecided(l, kind, (d: Decision) => d.Append?);
      NoneDecided(l, kind, (d: Decision) => d.Noop?);
      NoneDecided(l, kind, (d: Decision) => d.Conflict?);
      assert ids == [];
    } else {
      var n := |clusters| - 1;
      TallyCounts(l, kind, clusters[..n], ids[..n]);
      DecidedOneMore(l, kind, clusters, ids, (d: Decision) => d.Mint?);
      DecidedOneMore(l, kind, clusters, ids, (d: Decision) => d.Append?);
      DecidedOneMore(l, kind, clusters, ids, (d: Decision) => d.Noop?);
      DecidedOneMore(l, kind, clusters, ids, (d: Decision) => d.Conflict?);
    }
  }

  lemma NoneDecided(l: Ledger, kind: string, verdict: Decision -> bool)
    ensures Decided(l, kind, [], [], verdict) == {}
  {
  }

  /** `run_registrar`: the view is taken once and kept up by hand, and every cluster is
      decided as it would be on a fresh one. */
  method RunRegistrar(tables: RegistryTables, kind: string, clusters: seq<set<string>>, ids: seq<string>)
    returns (summary: Summary)
    requires |clusters| == |ids| && tables.State().Valid() && NewIds(ids, tables.State())
    modifies tables
    ensures tables.State() == RegisteredAll(old(tables.State()), kind, clusters, ids)
    ensures tables.State().Valid()
    ensures summary == Tally(old(tables.State()), kind, clusters, ids)
  {
    hide Decide, Registered, Known, RegisteredAll, Tally;
    var view := tables.RegisteredView(kind);
    summary := Summary(0, 0, 0, 0, 0);
    ghost var before := tables.State();
    NoCluster(before, kind, clusters, ids);
    for i := 0 to |clusters|
      invariant tables.State() == RegisteredAll(before, kind, clusters[..i], ids[..i])
      invariant Between(tables.State(), before, ids, i)
      invariant view == tables.State().View(kind)
      invariant summary == Tally(before, kind, clusters[..i], ids[..i])
    {
      StillNew(tables.State(), before, ids, i);
      BetweenGoesOn(tables.State(), before, ids, i, kind, clusters[i]);
      LastCluster(before, kind, clusters, ids, i);
      var decision;
      decision, view := RegisterCluster(tables, kind, clusters[i], ids[i], view);
      summary := Counted(summary, decision);
    }
    assert clusters[..|clusters|] == clusters && ids[..|ids|] == ids;
  }

  lemma NoCluster(l: Ledger, kind: string, clusters: seq<set<string>>, ids: seq<string>)
    requires |clusters| == |ids|
    ensures RegisteredAll(l, kind, clusters[..0], ids[..0]) == l
    ensures Tally(l, kind, clusters[..0], ids[..0]) == Summary(0, 0, 0, 0, 0)
  {
  }

  /** One turn of the registrar's loop. */
  method RegisterCluster(tables: RegistryTables, kind: string, cluster: set<string>, id: string, before: map<string, string>)
    returns (decision: Decision, view: map<string, string>)
    requires tables.State().Valid() && id !in tables.State().entities && before == tables.State().View(kind)
    modifies tables
    ensures tables.State() == Registered(old(tables.State()), kind, cluster, id)
    ensures decision == Decide(cluster, before)
    ensures view == tables.State().View(kind)
  {
    hide Decide, Registered, Known;
    ghost var l := tables.State();
    RunningViewIsFresh(l, kind, cluster, id);
    AppliedIs(l, kind, cluster, id);
    decision, view := Decide(cluster, before), before;
    if decision.Conflict? { return; }
    var entity := ApplyFresh(tables, kind, cluster, decision, id);
    if decision.Mint? || decision.Append? { view := Noted(before, decision.register, entity); }
  }

  lemma LastCluster(l: Ledger, kind: string, clusters: seq<set<string>>, ids: seq<string>, i: nat)
    requires |clusters| == |ids| && i < |clusters|
    ensures RegisteredAll(l, kind, clusters[..i + 1], ids[..i + 1])
         == Registered(RegisteredAll(l, kind, clusters[..i], ids[..i]), kind, clusters[i], ids[i])
    ensures Tally(l, kind, clusters[..i + 1], ids[..i + 1])
         == Counted(Tally(l, kind, clusters[..i], ids[..i]), Decide(clusters[i], RegisteredAll(l, kind, clusters[..i], ids[..i]).View(kind)))
  {
    hide Registered, Decide;
    assert clusters[..i + 1][..i] == clusters[..i] && ids[..i + 1][..i] == ids[..i];
  }

  lemma AppliedIs(l: Ledger, kind: string, cluster: set<string>, id: string)
    ensures var d := Decide(cluster, l.View(kind));
            Registered(l, kind, cluster, id) == if d.Conflict? || d.Noop? then l else Written(l, kind, d, id)
  {
    hide Decide;
  }

  /** A decision just taken on a fresh view applies without an error. */
  method ApplyFresh(tables: RegistryTables, kind: string, cluster: set<string>, decision: Decision, id: string)
    returns (entity: string)
    requires tables.State().Valid() && id !in tables.State().entities
    requires decision == Decide(cluster, tables.State().View(kind)) && !decision.Conflict?
    modifies tables
    ensures tables.State() == Registered(old(tables.State()), kind, cluster, id)
    ensures entity == EntityOf(old(tables.State()), kind, cluster, id)
  {
    hide Decide, Known;
    NeverRefused(tables.State(), kind, cluster, id);
    AppliedIs(tables.State(), kind, cluster, id);
    var applied := tables.ApplyDecision(kind, decision, id);
    return applied.entity;
  }

  method Noted(before: map<string, string>, register: set<string>, entity: string) returns (view: map<string, string>)
    ensures view == before + map n | n in register :: entity
  {
    view := before;
    var left := register;
    while left != {}
      invariant left <= register
      invariant view == before + map n | n in register - left :: entity
      decreases |left|
    {
      var n :| n in left;
      view := view[n := entity];
      left := left - {n};
    }
    assert register - left == register;
  }
}
