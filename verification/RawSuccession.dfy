/** Runs of one scope, one after another, from whatever cursor each one finds: where a run
    leaves off, and what has been examined by the time one comes to the end. */
module RawSuccession {
  import opened Ordering
  import opened RawStores
  import opened RawIntegrity
  import opened RawCoverage

  // ----- Where a run leaves off

  /** What the pass a run ends with examines. */
  function LastPass(a: Archive, keys: seq<Key>, budget: Option<int>, cursor: Option<Key>): seq<Key> {
    Examined(a, keys, budget, if Wraps(Pass(a, keys, budget, cursor), cursor) then None else cursor)
  }

  /** The run came to the last key there is. */
  predicate CameToTheEnd(a: Archive, keys: seq<Key>, budget: Option<int>, cursor: Option<Key>) {
    var examined := LastPass(a, keys, budget, cursor);
    examined != [] && keys != [] && examined[|examined| - 1] == keys[|keys| - 1]
  }

  /** With something to examine and budget to do so, a run that comes to the last key of its
      catalog leaves no cursor, and any other leaves the last key it examined. */
  lemma CursorLeft(a: Archive, keys: seq<Key>, budget: Option<int>, cursor: Option<Key>)
    requires SortedBy(keys, Order) && Distinct(keys) && keys != [] && (budget.Some? ==> budget.value > 0)
    ensures var examined, next := LastPass(a, keys, budget, cursor), NextCursor(Run(a, keys, budget, cursor));
            && examined != []
            && next == if examined[|examined| - 1] == keys[|keys| - 1] then None else Some(examined[|examined| - 1])
  {
    hide Examined, SortedBy, Distinct, Rest;
    RestOfAll(keys);
    FirstKeyExamined(a, keys, budget, None);
    FirstKeyExamined(a, keys, budget, cursor);
    IdlePass(a, keys, budget, cursor);
    LastStop(a, keys, budget, cursor);
    LastStop(a, keys, budget, None);
  }

  /** A pass stops early exactly when the last key it examined is not the last there is. */
  lemma LastStop(a: Archive, keys: seq<Key>, budget: Option<int>, after: Option<Key>)
    requires SortedBy(keys, Order) && Distinct(keys)
    ensures var examined, r := Examined(a, keys, budget, after), Pass(a, keys, budget, after);
            examined != [] ==>
              && keys != [] && r.lastKey == Some(examined[|examined| - 1])
              && (r.exhausted <==> examined[|examined| - 1] != keys[|keys| - 1])
  {
    hide Examined, SortedBy, Rest;
    ExaminedSlice(a, keys, budget, after);
    var examined := Examined(a, keys, budget, after);
    var q := Behind(keys, after) + |examined|;
    if examined != [] { assert examined[|examined| - 1] == keys[q - 1]; }
  }

  /** With nothing referenced, or a negative budget, none. */
  lemma NoCursorLeft(a: Archive, keys: seq<Key>, budget: Option<int>, cursor: Option<Key>)
    requires SortedBy(keys, Order) && (keys == [] || (budget.Some? && budget.value <= 0))
    ensures NextCursor(Run(a, keys, budget, cursor)).None?
  {
    hide SortedBy, Rest, Reach;
    NoRest(cursor);
    NoRest(None);
    FirstKeyExamined(a, keys, budget, None);
    FirstKeyExamined(a, keys, budget, cursor);
  }

  // ----- One run after another

  /** A run of the scope: the store as it finds it, and how it is called. */
  datatype SweepRun = SweepRun(archive: Archive, keys: seq<Key>, byteBudget: int, dryRun: bool)

  /** The cursor a run goes by: unbudgeted runs ask for none. */
  function Going(run: SweepRun, stored: Option<Key>): Option<Key> {
    if run.byteBudget == 0 then None else stored
  }

  /** Each run finds the cursor the run before it left; a dry run leaves what it found. Runs
      of other scopes may come between. */
  ghost predicate Successive(runs: seq<SweepRun>, stored: seq<Option<Key>>, scope: string) {
    && |stored| == |runs| + 1
    && (forall i :: 0 <= i < |runs| ==> IsCatalog(runs[i].keys, runs[i].archive, scope))
    && (forall i :: 0 <= i < |runs| ==> stored[i + 1] == LeftBy(runs[i], stored[i]))
  }

  function LeftBy(run: SweepRun, stored: Option<Key>): Option<Key> {
    if run.dryRun then stored else NextCursor(Run(run.archive, run.keys, BudgetOf(run.byteBudget), Going(run, stored)))
  }

  ghost predicate Sees(run: SweepRun, stored: Option<Key>, k: Key) {
    Visited(run.archive, run.keys, BudgetOf(run.byteBudget), Going(run, stored), k)
  }

  predicate Ends(run: SweepRun, stored: Option<Key>) {
    CameToTheEnd(run.archive, run.keys, BudgetOf(run.byteBudget), Going(run, stored))
  }

  predicate Fails(run: SweepRun, stored: Option<Key>, expectObjects: bool) {
    OutcomeOf(Run(run.archive, run.keys, BudgetOf(run.byteBudget), Going(run, stored)), expectObjects) == Failed
  }

  /** One of the runs from `i` on, before `n`, examined it. */
  ghost predicate SeenBetween(runs: seq<SweepRun>, stored: seq<Option<Key>>, k: Key, i: nat, n: nat)
    requires i <= n <= |runs| && |stored| == |runs| + 1
  {
    exists j :: i <= j < n && Sees(runs[j], stored[j], k)
  }

  /** A run that does not see a key ahead of it leaves it ahead. */
  lemma UnseenStaysAhead(run: SweepRun, stored: Option<Key>, scope: string, k: Key)
    requires IsCatalog(run.keys, run.archive, scope) && run.archive.InScope(k, scope) && Past(stored, k)
    ensures Sees(run, stored, k) || Past(LeftBy(run, stored), k)
  {
    hide Examined, Pass, Past, SortedBy, Distinct;
    var a, keys, budget, cursor := run.archive, run.keys, BudgetOf(run.byteBudget), Going(run, stored);
    NoneIsAhead(k);
    assert Past(cursor, k) && k in keys;
    PassCovers(a, keys, budget, cursor, k);
    if !run.dryRun && !Sees(run, stored, k) {
      assert Pass(a, keys, budget, cursor).exhausted;
      PassLeaves(a, keys, budget, cursor);
    }
  }

  lemma NoneIsAhead(k: Key)
    ensures Past(None, k)
  {
  }

  lemma PassLeaves(a: Archive, keys: seq<Key>, budget: Option<int>, after: Option<Key>)
    ensures var examined := Examined(a, keys, budget, after);
            Pass(a, keys, budget, after).lastKey == if examined == [] then None else Some(examined[|examined| - 1])
  {
    hide Examined;
  }

  lemma {:induction false} UnseenIsAhead(runs: seq<SweepRun>, stored: seq<Option<Key>>, scope: string, k: Key, i: nat, n: nat)
    requires Successive(runs, stored, scope) && i <= n <= |runs| && stored[i].None?
    requires forall j :: i <= j < n ==> runs[j].archive.InScope(k, scope)
    ensures SeenBetween(runs, stored, k, i, n) || Past(stored[n], k)
    decreases n
  {
    hide Sees, Past, LeftBy, IsCatalog;
    NoneIsAhead(k);
    if i < n {
      UnseenIsAhead(runs, stored, scope, k, i, n - 1);
      if Past(stored[n - 1], k) { UnseenStaysAhead(runs[n - 1], stored[n - 1], scope, k); }
    }
  }

  /** A run that comes to the end examines every key of its catalog it had ahead of it. */
  lemma EndSeesAhead(run: SweepRun, stored: Option<Key>, scope: string, k: Key)
    requires IsCatalog(run.keys, run.archive, scope) && run.archive.InScope(k, scope) && Past(stored, k) && Ends(run, stored)
    ensures Sees(run, stored, k)
  {
    hide Examined, Pass, Past, SortedBy;
    var a, keys, budget, cursor := run.archive, run.keys, BudgetOf(run.byteBudget), Going(run, stored);
    NoneIsAhead(k);
    assert Past(cursor, k) && k in keys;
    PassCovers(a, keys, budget, cursor, k);
    LastStop(a, keys, budget, cursor);
  }

  /** After a run that came to the end, and stored that it did, the next one begins with the
      first key there is. */
  lemma NextBeginsAtTheTop(runs: seq<SweepRun>, stored: seq<Option<Key>>, scope: string, i: nat)
    requires Successive(runs, stored, scope) && i + 1 < |runs| && !runs[i].dryRun
    requires Ends(runs[i], stored[i]) && runs[i + 1].keys != [] && runs[i + 1].byteBudget >= 0
    ensures stored[i + 1].None?
    ensures var next := runs[i + 1];
            var examined := LastPass(next.archive, next.keys, BudgetOf(next.byteBudget), Going(next, stored[i + 1]));
            examined != [] && examined[0] == next.keys[0]
  {
    hide Examined, Pass, SortedBy, Distinct, Run;
    var run, next := runs[i], runs[i + 1];
    EndLeavesNone(run, stored[i], scope);
    assert stored[i + 1] == LeftBy(run, stored[i]);
    CursorLeft(next.archive, next.keys, BudgetOf(next.byteBudget), None);
    ExaminedSlice(next.archive, next.keys, BudgetOf(next.byteBudget), None);
    RestOfAll(next.keys);
  }

  lemma EndLeavesNone(run: SweepRun, stored: Option<Key>, scope: string)
    requires IsCatalog(run.keys, run.archive, scope) && !run.dryRun && Ends(run, stored)
    ensures LeftBy(run, stored).None?
  {
    hide Examined, Pass, SortedBy, Distinct, Run;
    FirstKeyExamined(run.archive, run.keys, BudgetOf(run.byteBudget), Going(run, stored));
    FirstKeyExamined(run.archive, run.keys, BudgetOf(run.byteBudget), None);
    CursorLeft(run.archive, run.keys, BudgetOf(run.byteBudget), Going(run, stored));
  }

  /** Between one run that comes to the end, storing that it did, and the next that comes to
      the end, whatever the budgets and whoever runs dry, each object referenced all the
      while is examined. */
  lemma NothingIsSkipped(runs: seq<SweepRun>, stored: seq<Option<Key>>, scope: string, k: Key, i: nat, n: nat)
    requires Successive(runs, stored, scope) && i < n < |runs|
    requires !runs[i].dryRun && Ends(runs[i], stored[i]) && Ends(runs[n], stored[n])
    requires forall j :: i < j <= n ==> runs[j].archive.InScope(k, scope)
    ensures SeenBetween(runs, stored, k, i + 1, n + 1)
  {
    hide Sees, Past, LeftBy, IsCatalog, Ends;
    assert LeftBy(runs[i], stored[i]) == stored[i + 1];
    EndLeavesNone(runs[i], stored[i], scope);
    UnseenIsAhead(runs, stored, scope, k, i + 1, n);
    if Past(stored[n], k) { EndSeesAhead(runs[n], stored[n], scope, k); }
  }

  /** So an object that is bad and referenced from then on fails one of those runs. */
  lemma BadIsFound(runs: seq<SweepRun>, stored: seq<Option<Key>>, scope: string, k: Key, i: nat, n: nat, expectObjects: bool)
    requires Successive(runs, stored, scope) && i < n < |runs|
    requires !runs[i].dryRun && Ends(runs[i], stored[i]) && Ends(runs[n], stored[n])
    requires forall j :: i < j <= n ==> runs[j].archive.InScope(k, scope) && runs[j].archive.Bad(k)
    ensures exists j :: i < j <= n && Fails(runs[j], stored[j], expectObjects)
  {
    hide Visited, Run, Ends, LeftBy, IsCatalog;
    NothingIsSkipped(runs, stored, scope, k, i, n);
    var j :| i + 1 <= j < n + 1 && Sees(runs[j], stored[j], k);
    var run := runs[j];
    FailsExactlyOnBad(run.archive, run.keys, BudgetOf(run.byteBudget), Going(run, stored[j]), expectObjects);
    assert Fails(run, stored[j], expectObjects);
  }
}
