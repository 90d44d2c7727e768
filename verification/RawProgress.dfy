/** Nobody is stuck: from any moment of any interleaving, whoever has not crashed can still
    finish, by steps of its own and of the one that holds the lock. */
module RawProgress {
  import opened Ordering
  import opened RawStores
  import opened RawConcurrency

  /** The steps can be taken one after the other from `s`, and end in `t`. */
  ghost predicate Leads(s: Store, steps: seq<Step>, t: Store)
    decreases |steps|
  {
    if steps == [] then s == t else Enabled(s, steps[0]) && Leads(After(s, steps[0]), steps[1..], t)
  }

  /** Only processes of `ids` act, and none of them crashes. */
  ghost predicate ActedBy(steps: seq<Step>, ids: set<string>) {
    forall k :: 0 <= k < |steps| ==> !steps[k].Crash? && steps[k].id in ids
  }

  lemma {:induction false} LeadsOn(s: Store, a: seq<Step>, t: Store, b: seq<Step>, u: Store)
    requires Leads(s, a, t) && Leads(t, b, u)
    ensures Leads(s, a + b, u)
    decreases |a|
  {
    hide Enabled, After;
    if a == [] {
      assert a + b == b;
    } else {
      assert (a + b)[0] == a[0] && (a + b)[1..] == a[1..] + b;
      LeadsOn(After(s, a[0]), a[1..], t, b, u);
    }
  }

  lemma LeadsFirst(s: Store, step: Step, rest: seq<Step>, t: Store)
    requires Enabled(s, step) && Leads(After(s, step), rest, t)
    ensures Leads(s, [step] + rest, t)
  {
    hide Enabled, After;
    assert ([step] + rest)[1..] == rest;
  }

  lemma {:induction false} LeadsKeepInv(s: Store, steps: seq<Step>, t: Store)
    requires Inv(s) && Leads(s, steps, t)
    ensures Inv(t)
    decreases |steps|
  {
    hide Inv, Enabled, After;
    if steps != [] {
      StepKeepsInv(s, steps[0]);
      LeadsKeepInv(After(s, steps[0]), steps[1..], t);
    }
  }

  /** So they are an interleaving, from any one that ends in `s`. */
  lemma {:induction false} LeadsInterleaves(states: seq<Store>, before: seq<Step>, steps: seq<Step>, t: Store) returns (all: seq<Store>)
    requires Interleaving(states, before) && Leads(states[|states| - 1], steps, t)
    ensures Interleaving(all, before + steps) && states <= all && all[|all| - 1] == t
    decreases |steps|
  {
    hide Enabled, After;
    if steps == [] {
      all := states;
      assert before + steps == before;
    } else {
      var more := states + [After(states[|states| - 1], steps[0])];
      assert before + steps == (before + [steps[0]]) + steps[1..];
      all := LeadsInterleaves(more, before + [steps[0]], steps[1..], t);
    }
  }

  // ----- The holder of the lock

  predicate Done(p: Process) { p.Closed? || p.Rebuilt? }

  /** What a closing run has buffered. */
  function EntriesOf(p: Process): Option<seq<Entry>> {
    match p
    case Recording(entries) => Some(entries)
    case Filed(entries) => Some(entries)
    case Locked(entries) => Some(entries)
    case Advanced(entries, _) => Some(entries)
    case Written(entries) => Some(entries)
    case Closed(entries) => Some(entries)
    case _ => None
  }

  /** How far the holder still has to go. */
  function Stage(p: Process): nat {
    match p
    case RebuildLocked => 4
    case Locked(_) => 3
    case Replaying(_, _, _) => 2
    case Advanced(_, _) => 2
    case Written(_) => 1
    case RebuildWritten => 1
    case _ => 0
  }

  function LeftToReplay(p: Process): int { if p.Replaying? then |p.paths| - p.k else 0 }

  /** What the holder does next. */
  function NextStep(h: string, p: Process): Step
    requires p.HoldsLock()
  {
    match p
    case Locked(_) => Read(h)
    case RebuildLocked => List(h)
    case Replaying(paths, k, _) => if k < |paths| then Replay(h) else Write(h)
    case Advanced(_, _) => Write(h)
    case Written(_) => Unlock(h)
    case RebuildWritten => Unlock(h)
  }

  lemma HolderHolds(s: Store, h: string)
    requires Inv(s) && s.lock == Some(h)
    ensures h in s.processes && s.processes[h].HoldsLock()
    ensures Listed(s, s.processes[h])
  {
    assert s.processes[h].HoldsLock();
    assert ProcessOk(s, h, s.processes[h]);
    hide Newest, AllOffers, MergedIn, RawConcurrency.Chosen;
  }

  /** A process knows what it may replay. */
  ghost predicate Listed(s: Store, p: Process) {
    p.Replaying? ==> p.k <= |p.paths| && forall i :: 0 <= i < |p.paths| ==> p.paths[i] in s.manifests
  }

  /** The holder's next step, and how it moves it on. */
  lemma NextStepMoves(s: Store, h: string)
    requires h in s.processes && s.processes[h].HoldsLock() && s.lock == Some(h) && Listed(s, s.processes[h])
    ensures Enabled(s, NextStep(h, s.processes[h]))
    ensures MovesOn(s, h, After(s, NextStep(h, s.processes[h])))
  {
    NextStepEnabled(s, h);
    StepTouchesOne(s, NextStep(h, s.processes[h]));
    StepNears(s, h);
    hide Enabled, After, OthersAsTheyWere, EntriesOf, Nearer, Listed;
  }

  lemma NextStepEnabled(s: Store, h: string)
    requires h in s.processes && s.processes[h].HoldsLock() && Listed(s, s.processes[h])
    ensures Enabled(s, NextStep(h, s.processes[h])) && NextStep(h, s.processes[h]).id == h && !NextStep(h, s.processes[h]).File?
  {
  }

  lemma StepTouchesOne(s: Store, step: Step)
    requires Enabled(s, step) && !step.File? && step.id in s.processes
    ensures OthersAsTheyWere(s, After(s, step), step.id)
  {
    hide MergedIn, SortedTexts;
    var t := After(s, step);
    assert t.processes.Keys == s.processes.Keys;
  }

  lemma StepNears(s: Store, h: string)
    requires h in s.processes && s.processes[h].HoldsLock() && s.lock == Some(h) && Enabled(s, NextStep(h, s.processes[h]))
    requires h in After(s, NextStep(h, s.processes[h])).processes
    ensures var p, t := s.processes[h], After(s, NextStep(h, s.processes[h]));
            && EntriesOf(t.processes[h]) == EntriesOf(p)
            && (if NextStep(h, p).Unlock? then t.lock.None? && Done(t.processes[h])
                else t.lock == Some(h) && Nearer(p, t.processes[h]))
  {
    hide MergedIn, SortedTexts;
  }

  ghost predicate MovesOn(s: Store, h: string, t: Store)
    requires h in s.processes && s.processes[h].HoldsLock()
  {
    && OthersAsTheyWere(s, t, h) && EntriesOf(t.processes[h]) == EntriesOf(s.processes[h])
    && (if NextStep(h, s.processes[h]).Unlock? then t.lock.None? && Done(t.processes[h])
        else t.lock == Some(h) && Nearer(s.processes[h], t.processes[h]))
  }

  predicate Nearer(p: Process, q: Process) {
    Stage(q) < Stage(p) || (Stage(q) == Stage(p) && 0 <= LeftToReplay(q) < LeftToReplay(p))
  }

  lemma HolderSteps(s: Store, h: string)
    requires Inv(s) && s.lock == Some(h)
    ensures h in s.processes && s.processes[h].HoldsLock()
    ensures var step := NextStep(h, s.processes[h]);
            Enabled(s, step) && Inv(After(s, step)) && MovesOn(s, h, After(s, step))
  {
    HolderHolds(s, h);
    hide Inv;
    NextStepMoves(s, h);
    hide Enabled, After, MovesOn;
    StepKeepsInv(s, NextStep(h, s.processes[h]));
  }

  /** No other process, and no manifest, was touched. */
  ghost predicate OthersAsTheyWere(s: Store, t: Store, h: string) {
    && t.manifests == s.manifests && h in t.processes && t.processes.Keys == s.processes.Keys
    && forall x :: x in s.processes && x != h ==> t.processes[x] == s.processes[x]
  }

  /** Whoever holds the lock can finish, with nobody's help, and lets go of it. */
  lemma {:induction false} HolderFinishes(s: Store, h: string) returns (steps: seq<Step>, t: Store)
    requires Inv(s) && s.lock == Some(h)
    ensures Leads(s, steps, t) && ActedBy(steps, {h}) && Inv(t) && t.lock.None?
    ensures OthersAsTheyWere(s, t, h) && h in s.processes && Done(t.processes[h]) && EntriesOf(t.processes[h]) == EntriesOf(s.processes[h])
    decreases if h in s.processes then Stage(s.processes[h]) else 0, if h in s.processes && LeftToReplay(s.processes[h]) > 0 then LeftToReplay(s.processes[h]) else 0
  {
    hide Inv, Enabled, After, Leads, EntriesOf;
    HolderSteps(s, h);
    var step := NextStep(h, s.processes[h]);
    var next := After(s, step);
    if step.Unlock? {
      NoSteps(next);
      steps, t := [step] + [], next;
      LeadsFirst(s, step, [], next);
    } else {
      var rest;
      rest, t := HolderFinishes(next, h);
      LeadsFirst(s, step, rest, t);
      steps := [step] + rest;
    }
  }

  lemma NoSteps(s: Store)
    ensures Leads(s, [], s)
  {
  }

  // ----- Everybody else

  predicate Waiting(p: Process) { p.Filed? || p.RebuildWaiting? }

  lemma LockIsTaken(s: Store, id: string)
    requires Inv(s) && s.lock.None? && id in s.processes && Waiting(s.processes[id])
    ensures Enabled(s, Lock(id))
    ensures var t := After(s, Lock(id)); Inv(t) && t.lock == Some(id) && id in t.processes && EntriesOf(t.processes[id]) == EntriesOf(s.processes[id])
  {
    StepKeepsInv(s, Lock(id));
    hide Inv;
  }

  /** Whoever waits for the lock can have it, after the one that holds it is done, and
      finish. */
  lemma WaiterFinishes(s: Store, id: string) returns (steps: seq<Step>, t: Store)
    requires Inv(s) && id in s.processes && Waiting(s.processes[id])
    ensures Leads(s, steps, t) && ActedBy(steps, {id} + Holder(s)) && Inv(t)
    ensures id in t.processes && Done(t.processes[id]) && EntriesOf(t.processes[id]) == EntriesOf(s.processes[id])
  {
    hide Inv, Enabled, After, Leads, EntriesOf;
    var first, free := [], s;
    NoSteps(s);
    if s.lock.Some? {
      HolderSteps(s, s.lock.value);
      first, free := HolderFinishes(s, s.lock.value);
      assert s.lock.value != id;
    }
    LockIsTaken(free, id);
    var mine;
    mine, t := HolderFinishes(After(free, Lock(id)), id);
    LeadsFirst(free, Lock(id), mine, t);
    LeadsOn(s, first, free, [Lock(id)] + mine, t);
    steps := first + ([Lock(id)] + mine);
  }

  function Holder(s: Store): set<string> { if s.lock.Some? then {s.lock.value} else {} }

  lemma RunIsFiled(s: Store, id: string)
    requires Inv(s) && id in s.processes && s.processes[id].Recording?
    ensures Enabled(s, File(id))
    ensures var t := After(s, File(id)); Inv(t) && t.lock == s.lock && id in t.processes && t.processes[id] == Filed(s.processes[id].entries)
  {
    StepKeepsInv(s, File(id));
    hide Inv;
  }

  /** Nobody is stuck. From any moment of any interleaving, a process that has not crashed
      can finish by steps of its own and of whoever holds the lock, without a crash; and a
      run that does ends with its manifest filed, just what it buffered, and taken into the
      index. */
  lemma EveryoneCanFinish(s: Store, id: string) returns (steps: seq<Step>, t: Store)
    requires Inv(s) && id in s.processes && !s.processes[id].Crashed?
    ensures Leads(s, steps, t) && ActedBy(steps, {id} + Holder(s))
    ensures id in t.processes && Done(t.processes[id])
    ensures var entries := EntriesOf(s.processes[id]);
            entries.Some? ==> t.processes[id] == Closed(entries.value) && id in t.manifests && t.manifests[id] == Manifest(id, entries.value) && id in t.indexed
  {
    hide Enabled, After, Leads;
    hide Inv;
    var p := s.processes[id];
    if Done(p) {
      steps, t := [], s;
      NoSteps(s);
    } else if p.HoldsLock() {
      LockIsHis(s, id);
      steps, t := HolderFinishes(s, id);
    } else if p.Recording? {
      RunIsFiled(s, id);
      var rest;
      rest, t := WaiterFinishes(After(s, File(id)), id);
      LeadsFirst(s, File(id), rest, t);
      steps := [File(id)] + rest;
    } else {
      steps, t := WaiterFinishes(s, id);
    }
    LeadsKeepInv(s, steps, t);
    DoneIsFiled(t, id);
  }

  lemma LockIsHis(s: Store, id: string)
    requires Inv(s) && id in s.processes && s.processes[id].HoldsLock()
    ensures s.lock == Some(id)
  {
  }

  lemma DoneIsFiled(s: Store, id: string)
    requires Inv(s) && id in s.processes && Done(s.processes[id])
    ensures s.processes[id].Closed? ==> id in s.manifests && s.manifests[id] == Manifest(id, s.processes[id].entries) && id in s.indexed
  {
    assert ProcessOk(s, id, s.processes[id]);
    hide Newest, AllOffers;
  }
}
