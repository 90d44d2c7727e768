/** The identity registry: one decision table, an apply step, and the registrar's loop over
    them, on tables that only ever grow. */
module Registries {
  import opened Ordering
  import opened Tombstones

  /** A natural key, unique within its kind. */
  datatype Key = Key(kind: string, natural: string)

  datatype Entity = Entity(kind: string, mergedInto: Option<string>)

  /** The two tables as one value. The unique constraint makes the keys a map. */
  datatype Ledger = Ledger(entities: map<string, Entity>, keys: map<Key, string>) {
    /** The foreign keys hold. */
    ghost predicate Valid() {
      && (forall k :: k in keys ==> keys[k] in entities)
      && (forall id :: id in entities && entities[id].mergedInto.Some? ==> entities[id].mergedInto.value in entities)
    }

    function MergeMap(kind: string): Merges {
      map id | id in entities && entities[id].kind == kind && entities[id].mergedInto.Some? :: entities[id].mergedInto.value
    }

    /** What each key of a kind is registered to, tombstones unfollowed. */
    function Bindings(kind: string): map<string, string> {
      map k | k in keys && k.kind == kind :: k.natural := keys[k]
    }

    /** What each key of a kind resolves to. */
    function View(kind: string): map<string, string> {
      map n | n in Bindings(kind) :: Resolve(MergeMap(kind), Bindings(kind)[n])
    }

    function Minting(kind: string, id: string): Ledger { this.(entities := entities[id := Entity(kind, None)]) }

    function Binding(kind: string, naturals: set<string>, target: string): Ledger {
      this.(keys := keys + map n | n in naturals :: Key(kind, n) := target)
    }
  }

  // ----- The decision table

  datatype Decision =
    | Mint(register: set<string>)
    | Append(register: set<string>, entity: string)
    | Noop(entity: string)
    | Conflict(entities: set<string>)

  lemma OnlyOne(s: set<string>)
    requires |s| == 1
    ensures exists x :: s == {x}
  {
    var x :| x in s;
    assert |s - {x}| == 0;
    assert s == {x};
  }

  lemma {:induction false} ManyDiffer(s: set<string>)
    requires |s| > 1
    ensures exists x, y :: x in s && y in s && x != y
  {
    var x :| x in s;
    assert |s - {x}| > 0;
    var y :| y in s - {x};
    assert x != y;
  }

  function Known(cluster: set<string>, view: map<string, string>): set<string> {
    set k | k in cluster && k in view :: view[k]
  }

  lemma KnownIs(cluster: set<string>, view: map<string, string>)
    ensures forall k :: k in cluster && k in view ==> view[k] in Known(cluster, view)
    ensures forall e :: e in Known(cluster, view) ==> exists k :: k in cluster && k in view && view[k] == e
  {
  }

  /** `decide`. */
  function Decide(cluster: set<string>, view: map<string, string>): (d: Decision) {
    var unknown := set k | k in cluster && k !in view;
    var ids := Known(cluster, view);
    if |ids| > 1 then Conflict(ids)
    else if ids == {} then Mint(if unknown != {} then unknown else cluster)
    else
      OnlyOne(ids);
      var id :| ids == {id};
      if unknown == {} then Noop(id) else Append(unknown, id)
  }

  /** The table's rows, told apart by what the known keys say. */
  lemma DecideMeans(cluster: set<string>, view: map<string, string>)
    ensures var d := Decide(cluster, view);
            && (d.Conflict? <==> exists j, k :: j in cluster && j in view && k in cluster && k in view && view[j] != view[k])
            && (d.Conflict? ==> forall e :: e in d.entities <==> exists k :: k in cluster && k in view && view[k] == e)
            && (d.Mint? <==> forall k :: k in cluster ==> k !in view)
            && (d.Append? || d.Noop? ==> forall k :: k in cluster && k in view ==> view[k] == d.entity)
            && (d.Append? || d.Noop? ==> exists k :: k in cluster && k in view && view[k] == d.entity)
            && (d.Noop? <==> cluster != {} && !d.Conflict? && forall k :: k in cluster ==> k in view)
            && (d.Mint? || d.Append? ==> d.register == set k | k in cluster && k !in view)
  {
    var ids := Known(cluster, view);
    KnownIs(cluster, view);
    var d := Decide(cluster, view);
    if d.Conflict? {
      ManyDiffer(ids);
    } else if d.Mint? {
      assert (set k | k in cluster && k !in view) == cluster;
    } else {
      assert ids == {d.entity};
      var unknown := set k | k in cluster && k !in view;
      assert d.Noop? <==> unknown == {};
      if d.Append? {
        var k :| k in unknown;
        assert k in cluster && k !in view;
      } else {
        forall k | k in cluster ensures k in view { assert k !in unknown; }
      }
    }
  }

  // ----- Applying a decision

  datatype Applied = Resolved(entity: string) | Nothing | Refused

  function TargetOf(decision: Decision, id: string): string
    requires decision.Mint? || decision.Append?
  {
    if decision.Mint? then id else decision.entity
  }

  /** No constraint of the tables stands in the way. */
  predicate Writable(l: Ledger, kind: string, decision: Decision, id: string)
    requires decision.Mint? || decision.Append?
  {
    && (if decision.Mint? then id !in l.entities else decision.entity in l.entities)
    && forall n :: n in decision.register ==> Key(kind, n) !in l.keys
  }

  function Written(l: Ledger, kind: string, decision: Decision, id: string): Ledger
    requires decision.Mint? || decision.Append?
  {
    (if decision.Mint? then l.Minting(kind, id) else l).Binding(kind, decision.register, TargetOf(decision, id))
  }

  /** Decide on a fresh view, then apply: the ledger afterwards. */
  function Registered(l: Ledger, kind: string, cluster: set<string>, id: string): Ledger {
    var d := Decide(cluster, l.View(kind));
    if d.Conflict? || d.Noop? then l else Written(l, kind, d, id)
  }

  function EntityOf(l: Ledger, kind: string, cluster: set<string>, id: string): string {
    var d := Decide(cluster, l.View(kind));
    match d
    case Conflict(_) => ""
    case Noop(e) => e
    case Append(_, e) => e
    case Mint(_) => id
  }

  class RegistryTables {
    var entities: map<string, Entity>
    var keys: map<Key, string>

    constructor ()
      ensures State() == Ledger(map[], map[])
    {
      entities, keys := map[], map[];
    }

    function State(): Ledger
      reads this
    {
      Ledger(entities, keys)
    }

    /** `registered_view`: one row of the key table after another. */
    method RegisteredView(kind: string) returns (view: map<string, string>)
      ensures view == State().View(kind)
    {
      view := map[];
      var merges := State().MergeMap(kind);
      var rows := keys.Keys;
      while rows != {}
        invariant rows <= keys.Keys
        invariant forall n :: n in view <==> Key(kind, n) in keys.Keys - rows
        invariant forall n :: n in view ==> view[n] == Resolve(merges, keys[Key(kind, n)])
        decreases |rows|
      {
        var row :| row in rows;
        rows := rows - {row};
        if row.kind == kind {
          var survivor := ResolveMerged(merges, keys[row]);
          view := view[row.natural := survivor];
        }
      }
      ViewIs(State(), kind, view);
    }

    /** `apply_decision`. A broken constraint undoes the whole transaction. */
    method ApplyDecision(kind: string, decision: Decision, id: string) returns (applied: Applied)
      modifies this
      ensures decision.Conflict? ==> applied == Nothing && State() == old(State())
      ensures decision.Noop? ==> applied == Resolved(decision.entity) && State() == old(State())
      ensures decision.Mint? || decision.Append? ==>
                if Writable(old(State()), kind, decision, id)
                then applied == Resolved(TargetOf(decision, id)) && State() == Written(old(State()), kind, decision, id)
                else applied == Refused && State() == old(State())
    {
      if decision.Conflict? { return Nothing; }
      if decision.Noop? { return Resolved(decision.entity); }
      var target := TargetOf(decision, id);
      var rows := entities;
      if decision.Mint? {
        if id in entities { return Refused; }
        rows := rows[id := Entity(kind, None)];
      } else if target !in entities {
        return Refused;
      }
      var ok, staged := InsertKeys(kind, decision.register, target);
      if !ok { return Refused; }
      entities, keys := rows, staged;
      return Resolved(target);
    }

    /** Add a row for each key, up to the first the unique constraint refuses. */
    method InsertKeys(kind: string, register: set<string>, target: string) returns (ok: bool, staged: map<Key, string>)
      ensures ok <==> forall n :: n in register ==> Key(kind, n) !in keys
      ensures ok ==> staged == keys + map n | n in register :: Key(kind, n) := target
    {
      staged := keys;
      var left := register;
      while left != {}
        invariant left <= register
        invariant forall n :: n in register - left ==> Key(kind, n) !in keys
        invariant staged == keys + map n | n in register - left :: Key(kind, n) := target
        decreases |left|
      {
        var n :| n in left;
        if Key(kind, n) in keys { return false, staged; }
        staged := staged[Key(kind, n) := target];
        left := left - {n};
      }
      assert register - left == register;
      ok := true;
    }
  }

  lemma ViewIs(l: Ledger, kind: string, view: map<string, string>)
    requires forall n :: n in view <==> Key(kind, n) in l.keys
    requires forall n :: n in view ==> view[n] == Resolve(l.MergeMap(kind), l.keys[Key(kind, n)])
    ensures view == l.View(kind)
  {
    hide Resolve;
    InBindings(l, kind);
  }

  lemma InBindings(l: Ledger, kind: string)
    ensures forall n :: n in l.Bindings(kind) <==> Key(kind, n) in l.keys
    ensures forall n :: n in l.Bindings(kind) ==> l.Bindings(kind)[n] == l.keys[Key(kind, n)]
  {
    forall n | Key(kind, n) in l.keys ensures n in l.Bindings(kind) {
      assert Key(kind, n).natural == n;
    }
  }
}
