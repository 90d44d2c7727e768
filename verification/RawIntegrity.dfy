/** The integrity sweep: re-hash what the manifests name, a byte budget at a time, resuming
    from a cursor kept per scope. */
module RawIntegrity {
  import opened Ordering
  import opened RawStores

  /** One source's directory. */
  datatype Holdings = Holdings(manifests: map<string, Manifest>, objects: map<string, Body>)

  /** What a manifest points at. */
  datatype Key = Key(source: string, sha: string)

  function Order(k: Key): SortKey { [Text(k.source), Text(k.sha)] }

  predicate Names(e: Entry) { e.sha.Some? && e.sha.value != "" }

  /** The raw root as one run finds it. */
  datatype Archive = Archive(hash: Body -> string, sources: map<string, Holdings>) {
    predicate Held(k: Key) { k.source in sources && k.sha in sources[k.source].objects }

    function Size(k: Key): nat { if Held(k) then |sources[k.source].objects[k.sha]| else 0 }

    predicate Missing(k: Key) { !Held(k) }

    predicate Mismatched(k: Key) { Held(k) && hash(sources[k.source].objects[k.sha]) != k.sha }

    predicate Bad(k: Key) { Missing(k) || Mismatched(k) }

    ghost predicate NamedIn(k: Key, id: string)
      requires k.source in sources && id in sources[k.source].manifests
    {
      NamedBy(k, sources[k.source].manifests[id].entries)
    }

    /** Some closed run of the key's source names it. */
    ghost predicate Referenced(k: Key) {
      k.source in sources && exists id :: id in sources[k.source].manifests && NamedIn(k, id)
    }

    ghost predicate InScope(k: Key, scope: string) { (scope == "" || k.source == scope) && Referenced(k) }
  }

  ghost predicate NamedBy(k: Key, entries: seq<Entry>) {
    exists i :: 0 <= i < |entries| && Names(entries[i]) && entries[i].sha.value == k.sha
  }

  /** The keys a scope has to answer for, in the order the sweep visits them. */
  ghost predicate IsCatalog(keys: seq<Key>, a: Archive, scope: string) {
    SortedBy(keys, Order) && Distinct(keys) && forall k :: k in keys <==> a.InScope(k, scope)
  }

  lemma CatalogUnique(x: seq<Key>, y: seq<Key>, a: Archive, scope: string)
    requires IsCatalog(x, a, scope) && IsCatalog(y, a, scope)
    ensures x == y
  {
    DistinctSameElements(x, y);
    SortedUnique(x, y, Order);
  }

  // ----- One pass

  datatype VerifyResult = VerifyResult(
    objectsVerified: nat,
    bytesVerified: nat,
    mismatched: seq<string>,
    missing: seq<string>,
    exhausted: bool,
    lastKey: Option<Key>)
  {
    predicate Clean() { mismatched == [] && missing == [] }
  }

  predicate Past(after: Option<Key>, k: Key) { after.None? || !KeyLe(Order(k), Order(after.value)) }

  predicate Within(budget: Option<int>, spent: int) { budget.None? || spent < budget.value }

  /** The keys a pass resumes with. */
  function Rest(keys: seq<Key>, after: Option<Key>): seq<Key> {
    if keys == [] then []
    else
      var n := |keys| - 1;
      Rest(keys[..n], after) + (if Past(after, keys[n]) then [keys[n]] else [])
  }

  function Total(a: Archive, keys: seq<Key>): nat {
    if keys == [] then 0 else Total(a, keys[..|keys| - 1]) + a.Size(keys[|keys| - 1])
  }

  function Chosen(keys: seq<Key>, p: Key -> bool): seq<string> {
    if keys == [] then []
    else
      var n := |keys| - 1;
      Chosen(keys[..n], p) + (if p(keys[n]) then [keys[n].sha] else [])
  }

  /** What a pass that examined exactly these keys reports. */
  function Report(a: Archive, examined: seq<Key>, exhausted: bool): VerifyResult {
    VerifyResult(
      |Chosen(examined, a.Held)|,
      Total(a, examined),
      Chosen(examined, a.Mismatched),
      Chosen(examined, a.Missing),
      exhausted,
      if examined == [] then None else Some(examined[|examined| - 1]))
  }

  /** How many keys a budget reaches: those before which it was not yet spent. */
  function Reach(a: Archive, rest: seq<Key>, budget: Option<int>, from: nat): (n: nat)
    requires from <= |rest|
    ensures from <= n <= |rest|
    ensures forall j :: from <= j < n ==> Within(budget, Total(a, rest[..j]))
    ensures n < |rest| ==> !Within(budget, Total(a, rest[..n]))
    decreases |rest| - from
  {
    if from == |rest| || !Within(budget, Total(a, rest[..from])) then from
    else Reach(a, rest, budget, from + 1)
  }

  lemma ReachIs(a: Archive, rest: seq<Key>, budget: Option<int>, n: nat)
    requires n <= |rest| && (forall j :: 0 <= j < n ==> Within(budget, Total(a, rest[..j])))
    requires n < |rest| ==> !Within(budget, Total(a, rest[..n]))
    ensures Reach(a, rest, budget, 0) == n
  {
  }

  /** The keys one pass examines, of those it has to get through. */
  function Examined(a: Archive, keys: seq<Key>, budget: Option<int>, after: Option<Key>): seq<Key> {
    var rest := Rest(keys, after);
    rest[..Reach(a, rest, budget, 0)]
  }

  function Pass(a: Archive, keys: seq<Key>, budget: Option<int>, after: Option<Key>): VerifyResult {
    var examined := Examined(a, keys, budget, after);
    Report(a, examined, |examined| < |Rest(keys, after)|)
  }

  lemma ReportAppends(a: Archive, examined: seq<Key>, k: Key, exhausted: bool)
    ensures var r, s := Report(a, examined, exhausted), Report(a, examined + [k], exhausted);
            && s.objectsVerified == r.objectsVerified + (if a.Held(k) then 1 else 0)
            && s.bytesVerified == r.bytesVerified + a.Size(k)
            && s.mismatched == r.mismatched + (if a.Mismatched(k) then [k.sha] else [])
            && s.missing == r.missing + (if a.Missing(k) then [k.sha] else [])
            && s.lastKey == Some(k)
  {
    assert (examined + [k])[..|examined|] == examined;
  }

  lemma {:induction false} RestPrefix(keys: seq<Key>, after: Option<Key>, i: nat)
    requires i <= |keys|
    ensures Rest(keys[..i], after) <= Rest(keys, after)
  {
    if i < |keys| {
      var n := |keys| - 1;
      RestPrefix(keys[..n], after, i);
      assert keys[..n][..i] == keys[..i];
    } else {
      assert keys[..i] == keys;
    }
  }

  lemma RestAppends(keys: seq<Key>, after: Option<Key>, i: nat)
    requires i < |keys|
    ensures Rest(keys[..i + 1], after) == Rest(keys[..i], after) + (if Past(after, keys[i]) then [keys[i]] else [])
  {
    assert keys[..i + 1][..i] == keys[..i];
  }

  /** Every manifest's keys, each once, in the order they are first met. */
  method Expect(a: Archive, scope: string) returns (expected: seq<Key>)
    ensures Distinct(expected) && forall k :: k in expected <==> a.InScope(k, scope)
  {
    hide SortedTexts;
    var sources := if scope != "" then [scope] else SortedTexts(a.sources.Keys);
    expected := [];
    for i := 0 to |sources|
      invariant Distinct(expected)
      invariant forall k :: k in expected <==> k.source in sources[..i] && a.Referenced(k)
    {
      expected := ExpectSource(a, sources[i], expected);
      assert sources[..i + 1] == sources[..i] + [sources[i]];
    }
    assert sources[..|sources|] == sources;
  }

  method ExpectSource(a: Archive, source: string, before: seq<Key>) returns (expected: seq<Key>)
    requires Distinct(before)
    ensures Distinct(expected)
    ensures forall k :: k in expected <==> k in before || (k.source == source && a.Referenced(k))
  {
    hide SortedTexts;
    expected := before;
    if source !in a.sources { return; }
    var manifests := a.sources[source].manifests;
    var paths := SortedTexts(manifests.Keys);
    assert forall m :: 0 <= m < |paths| ==> paths[m] in paths && paths[m] in manifests;
    for m := 0 to |paths|
      invariant Distinct(expected)
      invariant forall k :: k in expected <==> k in before || (k.source == source && exists id :: id in paths[..m] && id in manifests && a.NamedIn(k, id))
    {
      var entries := manifests[paths[m]].entries;
      ghost var sofar := expected;
      for j := 0 to |entries|
        invariant Distinct(expected)
        invariant forall k :: k in expected <==> k in sofar || (k.source == source && NamedBy(k, entries[..j]))
      {
        if Names(entries[j]) {
          var k := Key(source, entries[j].sha.value);
          if k !in expected { expected := expected + [k]; }
        }
        NamedByAppends(source, entries, j);
      }
      assert entries[..|entries|] == entries;
      assert paths[..m + 1] == paths[..m] + [paths[m]];
    }
    assert paths[..|paths|] == paths;
  }

  lemma NamedByAppends(source: string, entries: seq<Entry>, j: nat)
    requires j < |entries|
    ensures forall k: Key :: k.source == source ==>
              (NamedBy(k, entries[..j + 1]) <==> NamedBy(k, entries[..j]) || (Names(entries[j]) && k == Key(source, entries[j].sha.value)))
  {
    forall k: Key | k.source == source
      ensures NamedBy(k, entries[..j + 1]) <==> NamedBy(k, entries[..j]) || (Names(entries[j]) && k == Key(source, entries[j].sha.value))
    {
      assert forall i :: 0 <= i < j ==> entries[..j + 1][i] == entries[..j][i];
      assert entries[..j + 1][j] == entries[j];
    }
  }

  /** Re-hash one object, or find it gone. */
  method Examine(a: Archive, k: Key, before: VerifyResult, ghost done: seq<Key>) returns (result: VerifyResult)
    requires before == Report(a, done, false)
    ensures result == Report(a, done + [k], false)
  {
    ReportAppends(a, done, k, false);
    result := before.(lastKey := Some(k));
    if a.Missing(k) {
      result := result.(missing := result.missing + [k.sha]);
      return;
    }
    if a.Mismatched(k) { result := result.(mismatched := result.mismatched + [k.sha]); }
    result := result.(objectsVerified := result.objectsVerified + 1, bytesVerified := result.bytesVerified + a.Size(k));
  }

  /** A pass is under way: it has examined these keys, the first it had to get through,
      and had budget left before each. */
  ghost predicate UnderWay(a: Archive, rest: seq<Key>, budget: Option<int>, done: seq<Key>) {
    done <= rest && forall j :: 0 <= j < |done| ==> Within(budget, Total(a, rest[..j]))
  }

  lemma PassEnds(a: Archive, keys: seq<Key>, budget: Option<int>, after: Option<Key>, done: seq<Key>)
    requires UnderWay(a, Rest(keys, after), budget, done)
    requires |done| < |Rest(keys, after)| ==> !Within(budget, Total(a, done))
    ensures Pass(a, keys, budget, after) == Report(a, done, |done| < |Rest(keys, after)|)
  {
    hide Rest, Report, Total, Within;
    var rest := Rest(keys, after);
    assert rest[..|done|] == done;
    ReachIs(a, rest, budget, |done|);
  }

  lemma PassGoesOn(a: Archive, rest: seq<Key>, budget: Option<int>, done: seq<Key>, k: Key)
    requires UnderWay(a, rest, budget, done) && done + [k] <= rest && Within(budget, Total(a, done))
    ensures UnderWay(a, rest, budget, done + [k])
  {
    hide Total, Within;
    assert rest[..|done|] == done;
  }

  /** `verify_store`: one pass over the sorted keys, strictly past `after`, that stops
      when the budget is spent. */
  method VerifyStore(a: Archive, scope: string, budget: Option<int>, after: Option<Key>)
    returns (result: VerifyResult)
    ensures exists keys :: IsCatalog(keys, a, scope) && result == Pass(a, keys, budget, after)
  {
    hide SortBy, IsCatalog, Rest, Total, Chosen, Pass;
    var expected := Expect(a, scope);
    var sorted := SortBy(expected, Order);
    CatalogOf(expected, a, scope);
    ghost var rest := Rest(sorted, after);
    ghost var done: seq<Key> := [];
    result := VerifyResult(0, 0, [], [], false, None);
    NothingYet(a, sorted, after);
    for i := 0 to |sorted|
      invariant done == Rest(sorted[..i], after) && UnderWay(a, rest, budget, done)
      invariant result == Report(a, done, false)
    {
      var k := sorted[i];
      RestAppends(sorted, after, i);
      RestPrefix(sorted, after, i + 1);
      if !Past(after, k) { continue; }
      if !Within(budget, result.bytesVerified) {
        PassEnds(a, sorted, budget, after, done);
        result := result.(exhausted := true);
        return;
      }
      PassGoesOn(a, rest, budget, done, k);
      result := Examine(a, k, result, done);
      done := done + [k];
    }
    assert sorted[..|sorted|] == sorted;
    PassEnds(a, sorted, budget, after, done);
  }

  lemma NothingYet(a: Archive, keys: seq<Key>, after: Option<Key>)
    ensures Rest(keys[..0], after) == []
    ensures Report(a, [], false) == VerifyResult(0, 0, [], [], false, None)
  {
  }

  lemma CatalogOf(expected: seq<Key>, a: Archive, scope: string)
    requires Distinct(expected) && forall k :: k in expected <==> a.InScope(k, scope)
    ensures IsCatalog(SortBy(expected, Order), a, scope)
  {
    SortBySorts(expected, Order);
    SameMultisetDistinct(expected, SortBy(expected, Order));
  }

  // ----- The cursor file

  /** The two shapes the state file has had: a cursor per scope, and one cursor in all. */
  datatype Document = Cursors(cursors: map<string, Option<Key>>) | OneCursor(cursor: Option<Key>)

  function CursorIn(document: Option<Document>, scope: string): Option<Key> {
    match document
    case None => None
    case Some(Cursors(cursors)) => if scope in cursors then cursors[scope] else None
    case Some(OneCursor(cursor)) => if scope == "" then cursor else None
  }

  class StateFile {
    var document: Option<Document>

    constructor ()
      ensures document == None
    {
      document := None;
    }

    method LoadState() returns (state: map<string, Option<Key>>)
      ensures forall scope :: CursorIn(Some(Cursors(state)), scope) == CursorIn(document, scope)
    {
      if document.None? { return map[]; }
      if document.value.Cursors? { return document.value.cursors; }
      return if document.value.cursor.Some? then map["" := document.value.cursor] else map[];
    }

    /** The scope's cursor becomes this one, and no other scope's cursor moves, whichever
        shape the file had. A cleared cursor is not kept. */
    method StoreCursor(scope: string, cursor: Option<Key>)
      modifies this
      ensures document.Some? && document.value.Cursors?
      ensures scope in document.value.cursors <==> cursor.Some?
      ensures forall other :: CursorIn(document, other) == if other == scope then cursor else CursorIn(old(document), other)
    {
      var state := LoadState();
      if cursor.Some? {
        state := state[scope := cursor];
      } else {
        state := state - {scope};
      }
      document := Some(Cursors(state));
    }
  }

  // ----- The job

  datatype Outcome = Passed | Degraded | Failed

  datatype Arguments = Arguments(source: string, byteBudget: int, dryRun: bool, expectObjects: bool)

  function BudgetOf(byteBudget: int): Option<int> { if byteBudget == 0 then None else Some(byteBudget) }

  /** The first pass found the cursor at the tail. */
  predicate Wraps(first: VerifyResult, cursor: Option<Key>) {
    cursor.Some? && first.objectsVerified == 0 && !first.exhausted
  }

  /** The second list, after the first, without what is already there. */
  function United(s: seq<string>, t: seq<string>): (r: seq<string>)
    ensures s <= r && forall x :: x in r <==> x in s || x in t
  {
    if t == [] then s
    else
      var n := |t| - 1;
      var u := United(s, t[..n]);
      assert t == t[..n] + [t[n]];
      if t[n] in u then u else u + [t[n]]
  }

  function Merged(full: VerifyResult, tail: VerifyResult): VerifyResult {
    full.(missing := United(full.missing, tail.missing), mismatched := United(full.mismatched, tail.mismatched))
  }

  /** What a run reports, over this catalog, from this cursor. */
  function Run(a: Archive, keys: seq<Key>, budget: Option<int>, cursor: Option<Key>): VerifyResult {
    var first := Pass(a, keys, budget, cursor);
    if Wraps(first, cursor) then Merged(Pass(a, keys, budget, None), first) else first
  }

  function NextCursor(r: VerifyResult): Option<Key> { if r.exhausted then r.lastKey else None }

  function OutcomeOf(r: VerifyResult, expectObjects: bool): Outcome {
    if r.Clean() && r.objectsVerified == 0 then (if expectObjects then Degraded else Passed)
    else if !r.Clean() then Failed
    else Passed
  }

  method Unite(s: seq<string>, t: seq<string>) returns (r: seq<string>)
    ensures r == United(s, t)
  {
    r := s;
    for i := 0 to |t|
      invariant r == United(s, t[..i])
    {
      assert t[..i + 1][..i] == t[..i];
      if t[i] !in r { r := r + [t[i]]; }
    }
    assert t[..|t|] == t;
  }

  /** `_sweep_job`. The root may not be there at all. */
  method SweepJob(root: Option<Archive>, args: Arguments, state: StateFile)
    returns (outcome: Outcome, result: VerifyResult, ghost keys: seq<Key>)
    modifies state
    ensures root.None? ==> outcome == (if args.expectObjects then Degraded else Passed) && state.document == old(state.document)
    ensures root.Some? ==> IsCatalog(keys, root.value, args.source)
    ensures root.Some? ==>
              var budget := BudgetOf(args.byteBudget);
              var cursor := if budget.Some? then CursorIn(old(state.document), args.source) else None;
              result == Run(root.value, keys, budget, cursor) && outcome == OutcomeOf(result, args.expectObjects)
    ensures root.Some? && args.dryRun ==> state.document == old(state.document)
    ensures root.Some? && !args.dryRun ==>
              forall scope :: CursorIn(state.document, scope) ==
                              if scope == args.source then NextCursor(result) else CursorIn(old(state.document), scope)
  {
    hide Pass, IsCatalog;
    keys := [];
    if root.None? {
      result := VerifyResult(0, 0, [], [], false, None);
      outcome := if args.expectObjects then Degraded else Passed;
      return;
    }
    var a := root.value;
    var budget := if args.byteBudget == 0 then None else Some(args.byteBudget);
    var cursor: Option<Key> := None;
    if budget.Some? {
      var cursors := state.LoadState();
      assert CursorIn(Some(Cursors(cursors)), args.source) == CursorIn(state.document, args.source);
      cursor := if args.source in cursors then cursors[args.source] else None;
    }
    result := VerifyStore(a, args.source, budget, cursor);
    keys :| IsCatalog(keys, a, args.source) && result == Pass(a, keys, budget, cursor);
    if cursor.Some? && result.objectsVerified == 0 && !result.exhausted {
      var tail := result;
      result := VerifyStore(a, args.source, budget, None);
      ghost var again :| IsCatalog(again, a, args.source) && result == Pass(a, again, budget, None);
      CatalogUnique(keys, again, a, args.source);
      var missing := Unite(result.missing, tail.missing);
      var mismatched := Unite(result.mismatched, tail.mismatched);
      result := result.(missing := missing, mismatched := mismatched);
    }
    var next := if result.exhausted then result.lastKey else None;
    if !args.dryRun { state.StoreCursor(args.source, next); }
    if result.Clean() && result.objectsVerified == 0 {
      outcome := if args.expectObjects then Degraded else Passed;
    } else if !result.Clean() {
      outcome := Failed;
    } else {
      outcome := Passed;
    }
  }
}
