/** What the rolling sweep covers, run after run, and what its outcomes mean. */
module RawCoverage {
  import opened Ordering
  import opened RawStores
  import opened RawIntegrity

  // ----- A pass is a slice of the catalog

  /** How much of the catalog a cursor has put behind it. */
  function Behind(keys: seq<Key>, after: Option<Key>): int { |keys| - |Rest(keys, after)| }

  lemma PastOnward(keys: seq<Key>, after: Option<Key>, i: nat, j: nat)
    requires SortedBy(keys, Order) && i < j < |keys| && Past(after, keys[i])
    ensures Past(after, keys[j])
  {
    hide KeyLe, TextLe, Order;
    assert KeyLe(Order(keys[i]), Order(keys[j]));
    if after.Some? {
      KeyLeTotal(Order(keys[j]), Order(after.value));
      if KeyLe(Order(keys[j]), Order(after.value)) { KeyLeTransitive(Order(keys[i]), Order(keys[j]), Order(after.value)); }
    }
  }

  lemma {:induction false} RestIsTail(keys: seq<Key>, after: Option<Key>)
    requires SortedBy(keys, Order)
    ensures 0 <= Behind(keys, after) <= |keys|
    ensures Rest(keys, after) == keys[Behind(keys, after)..]
    ensures forall i :: 0 <= i < |keys| ==> (Past(after, keys[i]) <==> Behind(keys, after) <= i)
  {
    hide Past, Order, Rest;
    if keys == [] {
      NothingLeft(after);
    } else {
      var n := |keys| - 1;
      var init := keys[..n];
      RestIsTail(init, after);
      if Behind(init, after) < n { PastOnward(keys, after, Behind(init, after), n); }
      assert init + [keys[n]] == keys;
      RestOneMore(init, keys[n], after);
      hide SortedBy, Behind;
      forall i | 0 <= i < n ensures keys[i] == init[i] {}
    }
  }

  lemma NothingLeft(after: Option<Key>)
    ensures Rest([], after) == [] && Behind([], after) == 0
  {
  }

  lemma RestOneMore(init: seq<Key>, k: Key, after: Option<Key>)
    requires 0 <= Behind(init, after) <= |init| && Rest(init, after) == init[Behind(init, after)..]
    requires Behind(init, after) < |init| ==> Past(after, k)
    ensures Behind(init + [k], after) == if Past(after, k) then Behind(init, after) else |init| + 1
    ensures Rest(init + [k], after) == (init + [k])[Behind(init + [k], after)..]
  {
    hide Past;
    var keys := init + [k];
    assert keys[..|init|] == init;
    assert Rest(keys, after) == Rest(init, after) + (if Past(after, k) then [k] else []);
    hide Rest;
  }

  /** Resuming from the last key of a slice puts exactly what came before it behind. */
  lemma BehindLast(keys: seq<Key>, q: nat)
    requires SortedBy(keys, Order) && Distinct(keys) && 0 < q <= |keys|
    ensures Behind(keys, Some(keys[q - 1])) == q
  {
    var last := keys[q - 1];
    RestIsTail(keys, Some(last));
    var p := Behind(keys, Some(last));
    KeyLeTotal(Order(last), Order(last));
    assert !Past(Some(last), keys[q - 1]);
    if p > q {
      assert !Past(Some(last), keys[q]) && KeyLe(Order(last), Order(keys[q]));
      KeyLeTotal(Order(last), Order(keys[q]));
      assert false;
    }
  }

  lemma ExaminedSlice(a: Archive, keys: seq<Key>, budget: Option<int>, after: Option<Key>)
    requires SortedBy(keys, Order)
    ensures var p := Behind(keys, after);
            var q := p + |Examined(a, keys, budget, after)|;
            && 0 <= p <= q <= |keys|
            && Examined(a, keys, budget, after) == keys[p..q]
            && (Pass(a, keys, budget, after).exhausted <==> q < |keys|)
  {
    RestIsTail(keys, after);
    var rest := Rest(keys, after);
    var n := Reach(a, rest, budget, 0);
    assert rest[..n] == keys[Behind(keys, after)..Behind(keys, after) + n];
  }

  // ----- What a pass costs

  /** A pass hashes less than its budget before the last object it touches, and, when it
      stops early, no less than its budget in all. */
  lemma PassCost(a: Archive, keys: seq<Key>, budget: int, after: Option<Key>)
    ensures var r, examined := Pass(a, keys, Some(budget), after), Examined(a, keys, Some(budget), after);
            && r.bytesVerified == Total(a, examined)
            && (examined != [] ==> Total(a, examined[..|examined| - 1]) < budget)
            && (r.exhausted ==> r.bytesVerified >= budget)
            && (r.exhausted && budget > 0 ==> examined != [] && r.lastKey == Some(examined[|examined| - 1]) && r.objectsVerified > 0)
  {
    var rest := Rest(keys, after);
    var n := Reach(a, rest, Some(budget), 0);
    var examined := rest[..n];
    if n > 0 {
      assert examined[..n - 1] == rest[..n - 1];
      assert Within(Some(budget), Total(a, rest[..n - 1]));
    }
    if n < |rest| && budget > 0 { BytesComeFromObjects(a, examined); }
  }

  lemma {:induction false} BytesComeFromObjects(a: Archive, examined: seq<Key>)
    requires Total(a, examined) > 0
    ensures Chosen(examined, a.Held) != []
  {
    var n := |examined| - 1;
    if !a.Held(examined[n]) { BytesComeFromObjects(a, examined[..n]); }
  }

  lemma {:induction false} TotalSplits(a: Archive, keys: seq<Key>, p: nat, q: nat)
    requires p <= q <= |keys|
    ensures Total(a, keys[..q]) == Total(a, keys[..p]) + Total(a, keys[p..q])
    decreases q
  {
    if p == q {
      assert keys[p..q] == [];
    } else {
      TotalSplits(a, keys, p, q - 1);
      assert keys[..q][..q - 1] == keys[..q - 1] && keys[p..q][..q - 1 - p] == keys[p..q - 1];
    }
  }

  /** The bytes a whole run hashes: its pass's, and those of the pass it may start over. */
  function Hashed(a: Archive, keys: seq<Key>, budget: Option<int>, cursor: Option<Key>): nat {
    Total(a, Examined(a, keys, budget, cursor))
    + if Wraps(Pass(a, keys, budget, cursor), cursor) then Total(a, Examined(a, keys, budget, None)) else 0
  }

  lemma {:induction false} NothingHeldNothingHashed(a: Archive, examined: seq<Key>)
    requires Chosen(examined, a.Held) == []
    ensures Total(a, examined) == 0
  {
    if Total(a, examined) > 0 { BytesComeFromObjects(a, examined); }
  }

  /** A run that starts over hashed nothing the first time round, so what it reports is all
      it hashed, and that is less than its budget before the last object it touches. */
  lemma RunCost(a: Archive, keys: seq<Key>, budget: int, cursor: Option<Key>)
    ensures Hashed(a, keys, Some(budget), cursor) == Run(a, keys, Some(budget), cursor).bytesVerified
    ensures var last := Examined(a, keys, Some(budget), if Wraps(Pass(a, keys, Some(budget), cursor), cursor) then None else cursor);
            last != [] ==> Hashed(a, keys, Some(budget), cursor) - Total(a, [last[|last| - 1]]) < budget
  {
    var first := Examined(a, keys, Some(budget), cursor);
    var wraps := Wraps(Pass(a, keys, Some(budget), cursor), cursor);
    var last := Examined(a, keys, Some(budget), if wraps then None else cursor);
    PassCost(a, keys, budget, cursor);
    PassCost(a, keys, budget, None);
    PassCounts(a, keys, Some(budget), cursor);
    if wraps { NothingHeldNothingHashed(a, first); }
    hide Examined, Pass, Chosen, Total;
    if last != [] { LastCosts(a, last); }
  }

  lemma PassCounts(a: Archive, keys: seq<Key>, budget: Option<int>, after: Option<Key>)
    ensures Pass(a, keys, budget, after).objectsVerified == |Chosen(Examined(a, keys, budget, after), a.Held)|
  {
    hide Chosen, Examined;
  }

  lemma LastCosts(a: Archive, examined: seq<Key>)
    requires examined != []
    ensures Total(a, examined) == Total(a, examined[..|examined| - 1]) + Total(a, [examined[|examined| - 1]])
  {
    var n := |examined| - 1;
    TotalSplits(a, examined, n, |examined|);
    hide Total;
    assert examined[..|examined|] == examined && examined[n..|examined|] == [examined[n]];
  }

  // ----- Faults

  /** An object is bad exactly when its source has none under its name, or what it has does
      not hash to the name; and it costs its bytes, or nothing if it is not there. */
  lemma BadMeans(a: Archive, k: Key)
    ensures a.Bad(k) <==> !(k.source in a.sources && k.sha in a.sources[k.source].objects && a.hash(a.sources[k.source].objects[k.sha]) == k.sha)
    ensures a.Held(k) <==> k.source in a.sources && k.sha in a.sources[k.source].objects
    ensures a.Size(k) == if k.source in a.sources && k.sha in a.sources[k.source].objects then |a.sources[k.source].objects[k.sha]| else 0
  {
  }

  lemma {:induction false} ChosenMember(keys: seq<Key>, p: Key -> bool)
    ensures forall sha :: sha in Chosen(keys, p) <==> exists i :: 0 <= i < |keys| && p(keys[i]) && keys[i].sha == sha
  {
    if keys != [] {
      var n := |keys| - 1;
      ChosenMember(keys[..n], p);
      forall sha ensures sha in Chosen(keys, p) <==> exists i :: 0 <= i < |keys| && p(keys[i]) && keys[i].sha == sha {
        if sha in Chosen(keys[..n], p) {
          var i :| 0 <= i < n && p(keys[..n][i]) && keys[..n][i].sha == sha;
          assert keys[i] == keys[..n][i];
        }
        if i :| 0 <= i < |keys| && p(keys[i]) && keys[i].sha == sha {
          if i < n { assert keys[i] == keys[..n][i]; }
        }
      }
    }
  }

  /** A bad object the pass examined is in its report, and nothing else is. */
  lemma ReportIsFaults(a: Archive, examined: seq<Key>, exhausted: bool)
    ensures Report(a, examined, exhausted).Clean() <==> forall i :: 0 <= i < |examined| ==> !a.Bad(examined[i])
  {
    ChosenMember(examined, a.Missing);
    ChosenMember(examined, a.Mismatched);
    var r := Report(a, examined, exhausted);
    if r.missing != [] { assert r.missing[0] in r.missing; }
    if r.mismatched != [] { assert r.mismatched[0] in r.mismatched; }
    if i :| 0 <= i < |examined| && a.Bad(examined[i]) {
      assert examined[i].sha in r.missing || examined[i].sha in r.mismatched;
    }
  }

  /** What a run examines: its pass, and, when that found the cursor at the tail, the pass
      it starts over with. */
  ghost predicate Visited(a: Archive, keys: seq<Key>, budget: Option<int>, cursor: Option<Key>, k: Key) {
    || k in Examined(a, keys, budget, cursor)
    || (Wraps(Pass(a, keys, budget, cursor), cursor) && k in Examined(a, keys, budget, None))
  }

  /** A run fails exactly when it examined a bad object: a wrap loses no finding of the
      pass it replaces. */
  lemma FailsExactlyOnBad(a: Archive, keys: seq<Key>, budget: Option<int>, cursor: Option<Key>, expectObjects: bool)
    ensures OutcomeOf(Run(a, keys, budget, cursor), expectObjects) == Failed
       <==> exists k :: Visited(a, keys, budget, cursor, k) && a.Bad(k)
  {
    var first, full := Pass(a, keys, budget, cursor), Pass(a, keys, budget, None);
    var e, f := Examined(a, keys, budget, cursor), Examined(a, keys, budget, None);
    ReportIsFaults(a, e, first.exhausted);
    ReportIsFaults(a, f, full.exhausted);
    assert first == Report(a, e, first.exhausted) && full == Report(a, f, full.exhausted);
    hide Report, Examined;
    assert Merged(full, first).Clean() <==> first.Clean() && full.Clean() by { MergedClean(full, first); }
    if !first.Clean() {
      var i :| 0 <= i < |e| && a.Bad(e[i]);
      assert Visited(a, keys, budget, cursor, e[i]);
    } else if Wraps(first, cursor) && !full.Clean() {
      var i :| 0 <= i < |f| && a.Bad(f[i]);
      assert Visited(a, keys, budget, cursor, f[i]);
    }
  }

  lemma MergedClean(full: VerifyResult, tail: VerifyResult)
    ensures Merged(full, tail).Clean() <==> full.Clean() && tail.Clean()
  {
    if !tail.Clean() {
      if tail.missing != [] { assert tail.missing[0] in Merged(full, tail).missing; }
      if tail.mismatched != [] { assert tail.mismatched[0] in Merged(full, tail).mismatched; }
    }
    var m := Merged(full, tail);
    if m.missing != [] { assert m.missing[0] in m.missing; }
    if m.mismatched != [] { assert m.mismatched[0] in m.mismatched; }
  }

  lemma {:induction false} HeldOrMissing(a: Archive, keys: seq<Key>)
    ensures |Chosen(keys, a.Held)| + |Chosen(keys, a.Missing)| == |keys|
  {
    if keys != [] { HeldOrMissing(a, keys[..|keys| - 1]); }
  }

  /** A clean pass that verified nothing examined nothing; and one that verified nothing and
      was not cut short either had nothing to get through, or found all of it missing. */
  lemma IdlePass(a: Archive, keys: seq<Key>, budget: Option<int>, after: Option<Key>)
    ensures var r, examined := Pass(a, keys, budget, after), Examined(a, keys, budget, after);
            && (r.Clean() && r.objectsVerified == 0 <==> examined == [])
            && (r.exhausted && Within(budget, 0) ==> r.objectsVerified > 0)
  {
    var r, examined := Pass(a, keys, budget, after), Examined(a, keys, budget, after);
    HeldOrMissing(a, examined);
    if r.exhausted && Within(budget, 0) {
      PassCost(a, keys, if budget.Some? then budget.value else 1, after);
    }
  }

  lemma RestOfAll(keys: seq<Key>)
    requires SortedBy(keys, Order)
    ensures Rest(keys, None) == keys
  {
    hide SortedBy;
    RestIsTail(keys, None);
    if keys != [] { assert Past(None, keys[0]); }
  }

  /** A run has nothing to verify exactly when nothing is referenced, unless the operator
      gave a negative budget, which stops every pass before its first object and reads as
      an empty store: a clean pass, whatever the store holds. */
  lemma NothingToVerify(a: Archive, keys: seq<Key>, byteBudget: int, cursor: Option<Key>)
    requires SortedBy(keys, Order)
    requires byteBudget == 0 ==> cursor.None?
    ensures var r := Run(a, keys, BudgetOf(byteBudget), cursor);
            r.Clean() && r.objectsVerified == 0 <==> keys == [] || byteBudget < 0
  {
    var budget := BudgetOf(byteBudget);
    var first, full := Pass(a, keys, budget, cursor), Pass(a, keys, budget, None);
    hide Pass, Examined, SortedBy, Rest, Report;
    RestOfAll(keys);
    IdlePass(a, keys, budget, cursor);
    IdlePass(a, keys, budget, None);
    FirstKeyExamined(a, keys, budget, None);
    FirstKeyExamined(a, keys, budget, cursor);
    MergedClean(full, first);
    if keys == [] { assert Rest(keys, cursor) == [] by { NoRest(cursor); } }
  }

  lemma NoRest(after: Option<Key>)
    ensures Rest([], after) == []
  {
  }

  /** With budget in hand a pass gets to the first key it has to get through, and without
      any it gets to none. */
  lemma FirstKeyExamined(a: Archive, keys: seq<Key>, budget: Option<int>, after: Option<Key>)
    ensures Examined(a, keys, budget, after) == [] <==> Rest(keys, after) == [] || !Within(budget, 0)
  {
    var rest := Rest(keys, after);
    assert rest[..0] == [] && Total(a, []) == 0;
  }

  // ----- A coverage cycle

  /** One scope's runs through a coverage cycle: the store, its catalog and the scope's
      cursor as each run found them. Runs of other scopes may come between. */
  datatype Sweep = Sweep(archive: Archive, keys: seq<Key>, cursor: Option<Key>)

  function Opening(runs: seq<Sweep>, i: nat): Option<Key>
    requires i < |runs|
  {
    if i == 0 then None else runs[i].cursor
  }

  function PassOf(runs: seq<Sweep>, i: nat, budget: Option<int>): VerifyResult
    requires i < |runs|
  {
    Pass(runs[i].archive, runs[i].keys, budget, Opening(runs, i))
  }

  /** The cycle starts over, from a cleared cursor or from a wrap; each run before the last
      stops early and leaves its cursor to the next. */
  ghost predicate Cycle(runs: seq<Sweep>, scope: string, budget: Option<int>) {
    && runs != []
    && (forall i :: 0 <= i < |runs| ==> IsCatalog(runs[i].keys, runs[i].archive, scope))
    && (runs[0].cursor.None? || Wraps(Pass(runs[0].archive, runs[0].keys, budget, runs[0].cursor), runs[0].cursor))
    && (forall i :: 0 <= i < |runs| - 1 ==> PassOf(runs, i, budget).exhausted)
    && (forall i :: 0 <= i < |runs| - 1 ==>
                      runs[i + 1].cursor == NextCursor(Run(runs[i].archive, runs[i].keys, budget, runs[i].cursor)))
  }

  /** Its last pass came to the end of the catalog. */
  ghost predicate Complete(runs: seq<Sweep>, budget: Option<int>) {
    runs != [] && !PassOf(runs, |runs| - 1, budget).exhausted
  }

  /** The next run takes up where this run's pass of the cycle stopped. */
  lemma HandsOver(runs: seq<Sweep>, scope: string, budget: Option<int>, i: nat)
    requires Cycle(runs, scope, budget) && i < |runs| - 1
    ensures runs[i + 1].cursor == PassOf(runs, i, budget).lastKey
  {
    hide Pass, IsCatalog;
    assert PassOf(runs, i, budget).exhausted;
  }

  lemma HandsOverSome(runs: seq<Sweep>, scope: string, budget: int, i: nat)
    requires Cycle(runs, scope, Some(budget)) && i < |runs| - 1 && budget > 0
    ensures var examined := Examined(runs[i].archive, runs[i].keys, Some(budget), Opening(runs, i));
            examined != [] && runs[i + 1].cursor == Some(examined[|examined| - 1])
  {
    HandsOver(runs, scope, Some(budget), i);
    PassCost(runs[i].archive, runs[i].keys, budget, Opening(runs, i));
    assert PassOf(runs, i, Some(budget)).exhausted;
    hide Examined, Report, Total;
  }

  /** Some run of the cycle up to this one examined it. */
  ghost predicate Covered(runs: seq<Sweep>, budget: Option<int>, k: Key, n: nat)
    requires n <= |runs|
  {
    exists i :: 0 <= i < n && k in Examined(runs[i].archive, runs[i].keys, budget, Opening(runs, i))
  }

  /** A pass examines every key of its catalog past its opening that its cursor leaves
      behind. */
  lemma PassCovers(a: Archive, keys: seq<Key>, budget: Option<int>, after: Option<Key>, k: Key)
    requires SortedBy(keys, Order) && Distinct(keys) && k in keys && Past(after, k)
    ensures var examined := Examined(a, keys, budget, after);
            (!Pass(a, keys, budget, after).exhausted || (examined != [] && !Past(Some(examined[|examined| - 1]), k))) ==> k in examined
  {
    hide Rest, Pass, Examined, Past, Behind, SortedBy, Distinct;
    ExaminedSlice(a, keys, budget, after);
    RestIsTail(keys, after);
    var examined := Examined(a, keys, budget, after);
    var p := Behind(keys, after);
    var q := p + |examined|;
    var i :| 0 <= i < |keys| && keys[i] == k;
    if examined != [] {
      assert examined[|examined| - 1] == keys[q - 1];
      BehindLast(keys, q);
      RestIsTail(keys, Some(keys[q - 1]));
    }
    if i < q { assert examined[i - p] == k; }
  }

  /** Whatever the cursor has passed has been examined, if it was referenced throughout. */
  lemma {:induction false} CursorLeavesNothingBehind(runs: seq<Sweep>, scope: string, budget: int, k: Key, i: nat)
    requires Cycle(runs, scope, Some(budget)) && budget > 0 && i < |runs|
    requires forall j :: 0 <= j < |runs| ==> k in runs[j].keys
    ensures Past(Opening(runs, i), k) || Covered(runs, Some(budget), k, i)
  {
    hide Examined, Pass;
    if i > 0 {
      CursorLeavesNothingBehind(runs, scope, budget, k, i - 1);
      HandsOverSome(runs, scope, budget, i - 1);
      if !Covered(runs, Some(budget), k, i - 1) {
        var r := runs[i - 1];
        PassCovers(r.archive, r.keys, Some(budget), Opening(runs, i - 1), k);
      }
    }
  }

  /** Every object referenced when a cycle starts, and still referenced while it lasts, is
      examined before the cycle completes, however the manifests grow meanwhile. */
  lemma CycleCoversEverything(runs: seq<Sweep>, scope: string, budget: int, k: Key)
    requires Cycle(runs, scope, Some(budget)) && Complete(runs, Some(budget)) && budget > 0
    requires forall j :: 0 <= j < |runs| ==> runs[j].archive.InScope(k, scope)
    ensures Covered(runs, Some(budget), k, |runs|)
  {
    hide Examined, Pass;
    var n := |runs| - 1;
    assert forall j :: 0 <= j < |runs| ==> k in runs[j].keys;
    CursorLeavesNothingBehind(runs, scope, budget, k, n);
    if !Covered(runs, Some(budget), k, n) {
      PassCovers(runs[n].archive, runs[n].keys, Some(budget), Opening(runs, n), k);
      assert !PassOf(runs, n, Some(budget)).exhausted;
    }
  }

  /** An object that stays bad through a cycle makes one of its runs fail. */
  lemma BadObjectFailsItsCycle(runs: seq<Sweep>, scope: string, budget: int, k: Key, expectObjects: bool)
    requires Cycle(runs, scope, Some(budget)) && Complete(runs, Some(budget)) && budget > 0
    requires forall j :: 0 <= j < |runs| ==> runs[j].archive.InScope(k, scope) && runs[j].archive.Bad(k)
    ensures exists i :: 0 <= i < |runs| && OutcomeOf(Run(runs[i].archive, runs[i].keys, Some(budget), runs[i].cursor), expectObjects) == Failed
  {
    hide Examined, Pass, Run;
    CycleCoversEverything(runs, scope, budget, k);
    var i :| 0 <= i < |runs| && k in Examined(runs[i].archive, runs[i].keys, Some(budget), Opening(runs, i));
    var r := runs[i];
    assert Visited(r.archive, r.keys, Some(budget), r.cursor, k);
    FailsExactlyOnBad(r.archive, r.keys, Some(budget), r.cursor, expectObjects);
  }

  /** On a fixed store each run that stops early has put another budget's worth behind. */
  lemma {:induction false} BytesBehind(runs: seq<Sweep>, scope: string, budget: int, i: nat)
    requires Cycle(runs, scope, Some(budget)) && budget > 0 && i < |runs|
    requires forall j :: 0 <= j < |runs| ==> runs[j].archive == runs[0].archive && runs[j].keys == runs[0].keys
    ensures var keys := runs[0].keys;
            var p := Behind(keys, Opening(runs, i));
            0 <= p <= |keys| && Total(runs[0].archive, keys[..p]) >= i * budget
  {
    hide Examined, Pass, Total;
    var a, keys := runs[0].archive, runs[0].keys;
    RestIsTail(keys, Opening(runs, i));
    if i > 0 {
      BytesBehind(runs, scope, budget, i - 1);
      HandsOverSome(runs, scope, budget, i - 1);
      assert PassOf(runs, i - 1, Some(budget)).exhausted;
      PassAddsBudget(a, keys, budget, Opening(runs, i - 1), Opening(runs, i));
    }
  }

  lemma PassAddsBudget(a: Archive, keys: seq<Key>, budget: int, after: Option<Key>, next: Option<Key>)
    requires SortedBy(keys, Order) && Distinct(keys)
    requires Pass(a, keys, Some(budget), after).exhausted
    requires var examined := Examined(a, keys, Some(budget), after); examined != [] && next == Some(examined[|examined| - 1])
    ensures 0 <= Behind(keys, after) <= Behind(keys, next) <= |keys|
    ensures Total(a, keys[..Behind(keys, next)]) >= Total(a, keys[..Behind(keys, after)]) + budget
  {
    hide Total;
    ExaminedSlice(a, keys, Some(budget), after);
    PassCost(a, keys, budget, after);
    var examined := Examined(a, keys, Some(budget), after);
    var p := Behind(keys, after);
    var q := p + |examined|;
    assert next.value == keys[q - 1];
    BehindLast(keys, q);
    TotalSplits(a, keys, p, q);
  }

  /** A cycle over a fixed store of T bytes takes at most T / budget + 1 runs: the budgets
      of all but the last fit into T. */
  lemma CycleIsBounded(runs: seq<Sweep>, scope: string, budget: int)
    requires Cycle(runs, scope, Some(budget)) && budget > 0
    requires forall j :: 0 <= j < |runs| ==> runs[j].archive == runs[0].archive && runs[j].keys == runs[0].keys
    ensures (|runs| - 1) * budget <= Total(runs[0].archive, runs[0].keys)
  {
    hide Examined, Pass, Total, Rest, IsCatalog;
    var a, keys, n := runs[0].archive, runs[0].keys, |runs| - 1;
    BytesBehind(runs, scope, budget, n);
    var p := Behind(keys, Opening(runs, n));
    TotalSplits(a, keys, p, |keys|);
    assert keys[..|keys|] == keys;
  }
}
