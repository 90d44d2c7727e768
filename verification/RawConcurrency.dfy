/** Runs closing, crashing and rebuilding against one store, in any interleaving. A step
    is one atomic act: a rename, taking or dropping the lock, one read. */
module RawConcurrency {
  import opened Ordering
  import opened RawStores

  /** Where a process is. A run buffers, writes its manifest, and then updates the index
      under the lock; a rebuild holds the lock throughout. */
  datatype Process =
    | Recording(entries: seq<Entry>)
    | Filed(entries: seq<Entry>)
    | Locked(entries: seq<Entry>)
    | Advanced(entries: seq<Entry>, local: Index)
    | Written(entries: seq<Entry>)
    | Closed(entries: seq<Entry>)
    | RebuildWaiting
    | RebuildLocked
    | Replaying(paths: seq<string>, k: nat, local: Index)
    | RebuildWritten
    | Rebuilt
    | Crashed
  {
    predicate HoldsLock() {
      Locked? || Advanced? || Written? || RebuildLocked? || Replaying? || RebuildWritten?
    }
  }

  /** The files, the lock and the processes. `indexed` is for the argument only: the
      manifests the index was last written from. */
  datatype Store = Store(
    manifests: map<string, Manifest>,
    latest: Index,
    lock: Option<string>,
    processes: map<string, Process>,
    indexed: set<string>)

  datatype Step =
    | Open(id: string)
    | Record(id: string, entry: Entry)
    | File(id: string)
    | Lock(id: string)
    | Read(id: string)
    | Write(id: string)
    | Unlock(id: string)
    | OpenRebuild(id: string)
    | List(id: string)
    | Replay(id: string)
    | Crash(id: string)

  /** The step can be taken. Run ids are unique, so an opened id is a new one. */
  ghost predicate Enabled(s: Store, step: Step) {
    match step
    case Open(id) => id !in s.processes && id !in s.manifests
    case OpenRebuild(id) => id !in s.processes && id !in s.manifests
    case Record(id, _) => id in s.processes && s.processes[id].Recording?
    case File(id) => id in s.processes && s.processes[id].Recording?
    case Lock(id) => id in s.processes && s.lock.None? && (s.processes[id].Filed? || s.processes[id].RebuildWaiting?)
    case Read(id) => id in s.processes && s.processes[id].Locked?
    case List(id) => id in s.processes && s.processes[id].RebuildLocked?
    case Replay(id) => id in s.processes && s.processes[id].Replaying? && s.processes[id].k < |s.processes[id].paths|
                       && s.processes[id].paths[s.processes[id].k] in s.manifests
    case Write(id) => id in s.processes && (s.processes[id].Advanced? || (s.processes[id].Replaying? && s.processes[id].k == |s.processes[id].paths|))
    case Unlock(id) => id in s.processes && (s.processes[id].Written? || s.processes[id].RebuildWritten?)
    case Crash(id) => id in s.processes
  }

  function Put(s: Store, id: string, p: Process): Store {
    s.(processes := s.processes[id := p])
  }

  ghost function After(s: Store, step: Step): Store
    requires Enabled(s, step)
  {
    match step
    case Open(id) => Put(s, id, Recording([]))
    case OpenRebuild(id) => Put(s, id, RebuildWaiting)
    case Record(id, entry) => Put(s, id, Recording(s.processes[id].entries + [entry]))
    case File(id) =>
      Put(s.(manifests := s.manifests[id := Manifest(id, s.processes[id].entries)]), id, Filed(s.processes[id].entries))
    case Lock(id) =>
      Put(s.(lock := Some(id)), id, if s.processes[id].Filed? then Locked(s.processes[id].entries) else RebuildLocked)
    case Read(id) =>
      var entries := s.processes[id].entries;
      Put(s, id, Advanced(entries, MergedIn(s.latest, entries, id)))
    case List(id) => Put(s, id, Replaying(SortedTexts(s.manifests.Keys), 0, map[]))
    case Replay(id) =>
      var p := s.processes[id];
      var m := s.manifests[p.paths[p.k]];
      Put(s, id, Replaying(p.paths, p.k + 1, MergedIn(p.local, m.entries, m.runId)))
    case Write(id) =>
      var p := s.processes[id];
      if p.Advanced? then Put(s.(latest := p.local, indexed := s.indexed + {id}), id, Written(p.entries))
      else Put(s.(latest := p.local, indexed := SetOf(p.paths)), id, RebuildWritten)
    case Unlock(id) =>
      Put(s.(lock := None), id, if s.processes[id].Written? then Closed(s.processes[id].entries) else Rebuilt)
    case Crash(id) =>
      Put(if s.processes[id].HoldsLock() then s.(lock := None) else s, id, Crashed)
  }

  /** The manifests filed under the given ids. */
  function Chosen(manifests: map<string, Manifest>, ids: set<string>): set<Manifest> {
    set id | id in ids && id in manifests :: manifests[id]
  }

  // ----- The invariant

  /** What a process knows at each point. */
  ghost predicate ProcessOk(s: Store, id: string, p: Process) {
    match p
    case Recording(_) => id !in s.manifests
    case RebuildWaiting => id !in s.manifests
    case Filed(entries) => FiledAs(s, id, entries)
    case Locked(entries) => FiledAs(s, id, entries)
    case Advanced(entries, local) => FiledAs(s, id, entries) && local == MergedIn(s.latest, entries, id)
    case Written(entries) => FiledAs(s, id, entries) && id in s.indexed
    case Closed(entries) => FiledAs(s, id, entries) && id in s.indexed
    case Replaying(paths, k, local) =>
      && id !in s.manifests
      && k <= |paths| && (forall i :: 0 <= i < |paths| ==> paths[i] in s.manifests)
      && s.indexed <= SetOf(paths)
      && Newest(local, AllOffers(Chosen(s.manifests, SetOf(paths[..k]))))
    case RebuildLocked => id !in s.manifests
    case RebuildWritten => id !in s.manifests
    case Rebuilt => id !in s.manifests
    case Crashed => true
  }

  ghost predicate FiledAs(s: Store, id: string, entries: seq<Entry>) {
    id in s.manifests && s.manifests[id] == Manifest(id, entries)
  }

  /** The index is the newest-ok fold of some written manifests, among them every run that
      finished closing; and the lock is held by the one process that says it holds it. */
  ghost predicate Inv(s: Store) {
    && s.indexed <= s.manifests.Keys
    && Newest(s.latest, AllOffers(Chosen(s.manifests, s.indexed)))
    && (s.lock.Some? ==> s.lock.value in s.processes)
    && (forall id :: id in s.processes ==> (s.processes[id].HoldsLock() <==> s.lock == Some(id)))
    && (forall id :: id in s.processes ==> ProcessOk(s, id, s.processes[id]))
  }

  lemma ChosenGrows(manifests: map<string, Manifest>, id: string, m: Manifest, ids: set<string>)
    requires ids <= manifests.Keys && id !in manifests
    ensures Chosen(manifests[id := m], ids) == Chosen(manifests, ids)
  {
  }

  lemma ChosenAdds(manifests: map<string, Manifest>, ids: set<string>, id: string)
    requires id in manifests
    ensures Chosen(manifests, ids + {id}) == Chosen(manifests, ids) + {manifests[id]}
  {
  }

  /** A process the step does not touch goes on knowing what it knew, if the files it
      relies on did not change under it. */
  lemma BystanderOk(s: Store, t: Store, id: string, p: Process)
    requires ProcessOk(s, id, p)
    requires forall x :: x in s.manifests ==> x in t.manifests && t.manifests[x] == s.manifests[x]
    requires id !in s.manifests && !p.Crashed? ==> id !in t.manifests
    requires p.Advanced? ==> t.latest == s.latest
    requires p.Replaying? ==> t.indexed <= s.indexed
    requires p.Written? || p.Closed? ==> s.indexed <= t.indexed
    ensures ProcessOk(t, id, p)
  {
    if p.Replaying? {
      var ids := SetOf(p.paths[..p.k]);
      assert forall i :: 0 <= i < p.k ==> p.paths[..p.k][i] == p.paths[i];
      assert Chosen(t.manifests, ids) == Chosen(s.manifests, ids);
    }
    hide Newest, AllOffers, MergedIn;
  }

  lemma FileKeepsInv(s: Store, id: string)
    requires Inv(s) && Enabled(s, File(id))
    ensures Inv(After(s, File(id)))
  {
    var t := After(s, File(id));
    ChosenGrows(s.manifests, id, t.manifests[id], s.indexed);
    hide Newest, AllOffers, MergedIn, Chosen;
    forall x | x in t.processes ensures ProcessOk(t, x, t.processes[x]) {
      if x != id { BystanderOk(s, t, x, s.processes[x]); }
    }
  }

  /** One more manifest replayed: the working index is the fold of one more manifest. */
  lemma ReplayedOneMore(s: Store, id: string)
    requires Inv(s) && Enabled(s, Replay(id))
    ensures ProcessOk(After(s, Replay(id)), id, After(s, Replay(id)).processes[id])
  {
    var p := s.processes[id];
    assert ProcessOk(s, id, p);
    ReplayedFold(s.manifests, p.paths, p.k, p.local);
    hide Newest, AllOffers, MergedIn, Chosen;
  }

  lemma ReplayedFold(manifests: map<string, Manifest>, paths: seq<string>, k: nat, local: Index)
    requires k < |paths| && paths[k] in manifests
    requires Newest(local, AllOffers(Chosen(manifests, SetOf(paths[..k]))))
    ensures var m := manifests[paths[k]];
            Newest(MergedIn(local, m.entries, m.runId), AllOffers(Chosen(manifests, SetOf(paths[..k + 1]))))
  {
    hide Newest, AllOffers, MergedIn;
    var m, done := manifests[paths[k]], SetOf(paths[..k]);
    assert paths[..k + 1] == paths[..k] + [paths[k]];
    assert SetOf(paths[..k + 1]) == done + {paths[k]};
    ChosenAdds(manifests, done, paths[k]);
    AllOffersAdd(Chosen(manifests, done), m);
    MergeIsNewest(local, m.entries, m.runId, AllOffers(Chosen(manifests, done)));
    assert Offers(m) == OffersIn(m.entries, m.runId);
  }

  lemma ReplayKeepsInv(s: Store, id: string)
    requires Inv(s) && Enabled(s, Replay(id))
    ensures Inv(After(s, Replay(id)))
  {
    hide Newest, AllOffers, MergedIn, Chosen;
    var t := After(s, Replay(id));
    ReplayedOneMore(s, id);
    forall x | x in t.processes ensures ProcessOk(t, x, t.processes[x]) {
      if x != id { BystanderOk(s, t, x, s.processes[x]); }
    }
  }

  lemma ListedAll(s: Store)
    ensures var paths := SortedTexts(s.manifests.Keys);
            && (forall i :: 0 <= i < |paths| ==> paths[i] in s.manifests)
            && SetOf(paths) == s.manifests.Keys
            && Newest(map[], AllOffers(Chosen(s.manifests, SetOf(paths[..0]))))
  {
    var paths := SortedTexts(s.manifests.Keys);
    assert forall i :: 0 <= i < |paths| ==> paths[i] in paths;
    assert paths[..0] == [] && Chosen(s.manifests, SetOf([])) == {};
    assert AllOffers({}) == {};
  }

  lemma ListKeepsInv(s: Store, id: string)
    requires Inv(s) && Enabled(s, List(id))
    ensures Inv(After(s, List(id)))
  {
    hide Newest, AllOffers, MergedIn, Chosen, SortedTexts;
    var t := After(s, List(id));
    ListedAll(s);
    forall x | x in t.processes ensures ProcessOk(t, x, t.processes[x]) {
      if x != id { BystanderOk(s, t, x, s.processes[x]); }
    }
  }

  /** The index moves from what it said before to what the writer worked out under the
      lock; nobody else relies on what it said before. */
  lemma WriteKeepsInv(s: Store, id: string)
    requires Inv(s) && Enabled(s, Write(id))
    ensures Inv(After(s, Write(id)))
    ensures s.indexed <= After(s, Write(id)).indexed
  {
    var t := After(s, Write(id));
    WriteFolds(s, id);
    hide Newest, AllOffers, MergedIn, Chosen;
    assert s.processes[id].HoldsLock() && s.lock == Some(id);
    forall x | x in t.processes ensures ProcessOk(t, x, t.processes[x]) {
      if x != id {
        assert !s.processes[x].HoldsLock();
        BystanderOk(s, t, x, s.processes[x]);
      }
    }
  }

  /** What is written is the fold of the manifests it says it is. */
  lemma WriteFolds(s: Store, id: string)
    requires Inv(s) && Enabled(s, Write(id))
    ensures var t := After(s, Write(id));
            && s.indexed <= t.indexed <= t.manifests.Keys
            && Newest(t.latest, AllOffers(Chosen(t.manifests, t.indexed)))
  {
    var p := s.processes[id];
    assert ProcessOk(s, id, p);
    if p.Advanced? {
      ChosenAdds(s.manifests, s.indexed, id);
      AllOffersAdd(Chosen(s.manifests, s.indexed), s.manifests[id]);
      MergeIsNewest(s.latest, p.entries, id, AllOffers(Chosen(s.manifests, s.indexed)));
    } else {
      assert p.paths[..p.k] == p.paths;
    }
    hide Newest, AllOffers, MergedIn, Chosen;
  }

  lemma StepKeepsInv(s: Store, step: Step)
    requires Inv(s) && Enabled(s, step)
    ensures Inv(After(s, step))
  {
    match step
    case File(id) => FileKeepsInv(s, id);
    case Replay(id) => ReplayKeepsInv(s, id);
    case List(id) => ListKeepsInv(s, id);
    case Write(id) => WriteKeepsInv(s, id);
    case Crash(id) => OtherStepKeepsInv(s, step);
    case Unlock(id) => OtherStepKeepsInv(s, step);
    case Lock(id) => OtherStepKeepsInv(s, step);
    case Read(id) => OtherStepKeepsInv(s, step);
    case Open(id) => OtherStepKeepsInv(s, step);
    case OpenRebuild(id) => OtherStepKeepsInv(s, step);
    case Record(id, _) => OtherStepKeepsInv(s, step);
  }

  ghost predicate Quiet(step: Step) { !step.File? && !step.Replay? && !step.List? && !step.Write? }

  lemma QuietStepKeepsFiles(s: Store, step: Step)
    requires Enabled(s, step) && Quiet(step)
    ensures var t := After(s, step);
            && t.manifests == s.manifests && t.latest == s.latest && t.indexed == s.indexed
            && forall x :: x in t.processes && x != step.id ==> x in s.processes && t.processes[x] == s.processes[x]
  {
  }

  lemma QuietProcessOk(s: Store, step: Step)
    requires Inv(s) && Enabled(s, step) && Quiet(step)
    ensures var t := After(s, step);
            step.id in t.processes && ProcessOk(t, step.id, t.processes[step.id])
  {
    hide Newest, AllOffers, MergedIn, Chosen;
    if step.id in s.processes { assert ProcessOk(s, step.id, s.processes[step.id]); }
  }

  lemma LockKept(s: Store, step: Step)
    requires Inv(s) && Enabled(s, step) && Quiet(step)
    ensures var t := After(s, step);
            && (t.lock.Some? ==> t.lock.value in t.processes)
            && forall x :: x in t.processes ==> (t.processes[x].HoldsLock() <==> t.lock == Some(x))
  {
    hide Newest, AllOffers, MergedIn, Chosen, ProcessOk;
  }

  /** The steps that write no file. */
  lemma OtherStepKeepsInv(s: Store, step: Step)
    requires Inv(s) && Enabled(s, step) && Quiet(step)
    ensures Inv(After(s, step))
  {
    hide Newest, AllOffers, MergedIn, Chosen, ProcessOk, After, Enabled, Process.HoldsLock;
    var t := After(s, step);
    QuietStepKeepsFiles(s, step);
    QuietProcessOk(s, step);
    LockKept(s, step);
    forall x | x in t.processes ensures ProcessOk(t, x, t.processes[x]) {
      if x != step.id { BystanderOk(s, t, x, s.processes[x]); }
    }
  }

  // ----- Runs of the system

  /** An interleaving: states joined by steps. */
  ghost predicate Interleaving(states: seq<Store>, steps: seq<Step>) {
    && |states| == |steps| + 1
    && forall i :: 0 <= i < |steps| ==> Enabled(states[i], steps[i]) && states[i + 1] == After(states[i], steps[i])
  }

  /** A store nobody is working on, whose index is some newest-ok fold of its manifests:
      an empty one, say, or one just restored with no index at all. */
  ghost predicate Initial(s: Store) {
    && s.processes == map[] && s.lock == None && s.indexed <= s.manifests.Keys
    && Newest(s.latest, AllOffers(Chosen(s.manifests, s.indexed)))
  }

  lemma RestoredIsInitial(manifests: map<string, Manifest>)
    ensures Initial(Store(manifests, map[], None, map[], {}))
  {
    assert Chosen(manifests, {}) == {};
    assert AllOffers({}) == {};
  }

  lemma {:induction false} InterleavingKeepsInv(states: seq<Store>, steps: seq<Step>, i: nat)
    requires Interleaving(states, steps) && Inv(states[0]) && i < |states|
    ensures Inv(states[i])
  {
    hide Inv, Enabled, After;
    if i > 0 {
      InterleavingKeepsInv(states, steps, i - 1);
      StepKeepsInv(states[i - 1], steps[i - 1]);
    }
  }

  /** At every moment of every interleaving the index is the newest-ok fold of written
      manifests, and every run that finished closing is among them. */
  lemma IndexIsAlwaysAFold(states: seq<Store>, steps: seq<Step>, i: nat)
    requires Interleaving(states, steps) && Initial(states[0]) && i < |states|
    ensures var s := states[i];
            && s.indexed <= s.manifests.Keys
            && Newest(s.latest, AllOffers(Chosen(s.manifests, s.indexed)))
            && forall id :: id in s.processes && s.processes[id].Closed? ==> id in s.indexed && s.manifests[id] == Manifest(id, s.processes[id].entries)
  {
    InterleavingKeepsInv(states, steps, i);
    hide Newest, AllOffers, Chosen, Interleaving;
  }

  lemma ChosenMonotone(few: map<string, Manifest>, many: map<string, Manifest>, ids: set<string>, more: set<string>)
    requires ids <= more && ids <= few.Keys && forall x :: x in few ==> x in many && many[x] == few[x]
    ensures AllOffers(Chosen(few, ids)) <= AllOffers(Chosen(many, more))
  {
    assert Chosen(few, ids) <= Chosen(many, more);
  }

  /** No step takes a resource out of the index or back in time. */
  lemma StepAdvances(s: Store, step: Step)
    requires Inv(s) && Enabled(s, step)
    ensures Advances(s.latest, After(s, step).latest)
    ensures s.indexed <= After(s, step).indexed
  {
    var t := After(s, step);
    if step.Write? { WriteKeepsInv(s, step.id); }
    StepKeepsInv(s, step);
    assert s.indexed <= t.indexed;
    assert forall x :: x in s.manifests ==> x in t.manifests && t.manifests[x] == s.manifests[x] by {
      hide Newest, AllOffers, Chosen, MergedIn;
    }
    ChosenMonotone(s.manifests, t.manifests, s.indexed, t.indexed);
    MoreOffersAdvance(s.latest, t.latest, AllOffers(Chosen(s.manifests, s.indexed)), AllOffers(Chosen(t.manifests, t.indexed)));
    hide Newest, AllOffers, Chosen, MergedIn;
  }

  lemma {:induction false} NothingGoesBack(states: seq<Store>, steps: seq<Step>, i: nat, j: nat)
    requires Interleaving(states, steps) && Initial(states[0]) && i <= j < |states|
    ensures Advances(states[i].latest, states[j].latest)
    decreases j - i
  {
    hide Enabled, After, Inv;
    if i < j {
      NothingGoesBack(states, steps, i, j - 1);
      assert Inv(states[0]) by { InitialInv(states[0]); }
      InterleavingKeepsInv(states, steps, j - 1);
      StepAdvances(states[j - 1], steps[j - 1]);
    }
  }

  lemma InitialInv(s: Store)
    requires Initial(s)
    ensures Inv(s)
  {
    hide Newest, AllOffers, Chosen;
  }

  /** Nothing is half done: every process that filed a manifest has finished closing. */
  ghost predicate Quiescent(s: Store) {
    forall id :: id in s.processes ==>
      s.processes[id].Recording? || s.processes[id].Closed? || s.processes[id].RebuildWaiting? || s.processes[id].Rebuilt?
  }

  /** Every manifest was there at the start and indexed, or was filed by a known process. */
  ghost predicate Accounted(s: Store) {
    forall id :: id in s.manifests ==> id in s.indexed || id in s.processes
  }

  lemma {:induction false} AccountedAlways(states: seq<Store>, steps: seq<Step>, i: nat)
    requires Interleaving(states, steps) && Initial(states[0]) && Accounted(states[0]) && i < |states|
    ensures Accounted(states[i])
  {
    hide Inv, Newest, AllOffers, Chosen, MergedIn;
    if i > 0 {
      AccountedAlways(states, steps, i - 1);
      InitialInv(states[0]);
      InterleavingKeepsInv(states, steps, i - 1);
      StepAdvances(states[i - 1], steps[i - 1]);
    }
  }

  /** At quiescence without a crash the index is the newest-ok fold of every manifest. */
  lemma QuiescentIndexIsComplete(states: seq<Store>, steps: seq<Step>, i: nat)
    requires Interleaving(states, steps) && Initial(states[0]) && Accounted(states[0]) && i < |states|
    requires Quiescent(states[i])
    ensures Newest(states[i].latest, AllOffers(Chosen(states[i].manifests, states[i].manifests.Keys)))
  {
    var s := states[i];
    AccountedAlways(states, steps, i);
    InitialInv(states[0]);
    InterleavingKeepsInv(states, steps, i);
    hide Newest, AllOffers, Chosen, MergedIn, Interleaving;
    forall id | id in s.manifests ensures id in s.indexed {
      if id in s.processes { assert ProcessOk(s, id, s.processes[id]); QuiescentProcess(s, id); }
    }
    assert s.indexed == s.manifests.Keys;
  }

  lemma QuiescentProcess(s: Store, id: string)
    requires Quiescent(s) && id in s.processes && id in s.manifests && ProcessOk(s, id, s.processes[id])
    ensures s.processes[id].Closed? || s.processes[id].Rebuilt?
    ensures s.processes[id].Closed? ==> id in s.indexed
  {
  }

  /** Confluence: two quiescent histories that filed the same manifests, in whatever
      interleaving, end with the same index. */
  lemma InterleavingsConverge(a: seq<Store>, x: seq<Step>, b: seq<Store>, y: seq<Step>)
    requires Interleaving(a, x) && Initial(a[0]) && Accounted(a[0]) && Quiescent(a[|x|])
    requires Interleaving(b, y) && Initial(b[0]) && Accounted(b[0]) && Quiescent(b[|y|])
    requires a[|x|].manifests == b[|y|].manifests
    requires DistinctTimes(AllOffers(Chosen(a[|x|].manifests, a[|x|].manifests.Keys)))
    ensures a[|x|].latest == b[|y|].latest
  {
    QuiescentIndexIsComplete(a, x, |x|);
    QuiescentIndexIsComplete(b, y, |y|);
    var m := a[|x|].manifests;
    hide Newest, AllOffers, Chosen, DistinctTimes;
    NewestIsUnique(a[|x|].latest, b[|y|].latest, AllOffers(Chosen(m, m.Keys)));
  }

  /** From its listing on, a rebuild replays what it listed and nothing else. */
  ghost predicate Replays(p: Process, paths: seq<string>) {
    (p.Replaying? && p.paths == paths) || p.RebuildWritten? || p.Rebuilt? || p.Crashed?
  }

  lemma StepReplays(s: Store, step: Step, id: string, paths: seq<string>)
    requires Enabled(s, step) && id in s.processes && Replays(s.processes[id], paths)
    ensures id in After(s, step).processes && Replays(After(s, step).processes[id], paths)
  {
    hide SortedTexts, MergedIn;
  }

  lemma {:induction false} ReplayKeepsItsListing(states: seq<Store>, steps: seq<Step>, i: nat, j: nat, id: string)
    requires Interleaving(states, steps) && i < j < |states| && steps[i] == List(id)
    ensures id in states[j].processes && Replays(states[j].processes[id], SortedTexts(states[i].manifests.Keys))
    decreases j
  {
    hide Enabled, After, Replays, SortedTexts;
    if j == i + 1 {
      ListingStarts(states[i], id);
    } else {
      ReplayKeepsItsListing(states, steps, i, j - 1, id);
      StepReplays(states[j - 1], steps[j - 1], id, SortedTexts(states[i].manifests.Keys));
    }
  }

  lemma ListingStarts(s: Store, id: string)
    requires Enabled(s, List(id))
    ensures id in After(s, List(id)).processes && Replays(After(s, List(id)).processes[id], SortedTexts(s.manifests.Keys))
  {
    hide SortedTexts;
  }

  /** A rebuild, on whatever the index was before, crashes or not, leaves it the newest-ok
      fold of every manifest there was when it listed them, torn closes included. */
  lemma RebuildIsComplete(states: seq<Store>, steps: seq<Step>, i: nat, j: nat, id: string)
    requires Interleaving(states, steps) && Initial(states[0]) && i < j < |steps|
    requires steps[i] == List(id) && steps[j] == Write(id)
    ensures Newest(states[j + 1].latest, AllOffers(Chosen(states[j].manifests, states[i].manifests.Keys)))
  {
    InitialInv(states[0]);
    InterleavingKeepsInv(states, steps, j);
    ReplayKeepsItsListing(states, steps, i, j, id);
    ListedAll(states[i]);
    ReplayedAll(states[j], id);
    hide Newest, AllOffers, Chosen, SortedTexts, Inv;
  }

  lemma ReplayedAll(s: Store, id: string)
    requires Inv(s) && Enabled(s, Write(id)) && s.processes[id].Replaying?
    ensures Newest(After(s, Write(id)).latest, AllOffers(Chosen(s.manifests, SetOf(s.processes[id].paths))))
  {
    var p := s.processes[id];
    assert ProcessOk(s, id, p) && p.paths[..p.k] == p.paths;
    hide Newest, AllOffers, Chosen;
  }
}
