/** The raw store: content-addressed objects, run manifests, and the newest-ok index. */
module RawStores {
  import opened Ordering

  type Body = seq<bv8>

  datatype Status = FetchOk | FetchErr | FetchSkipped

  /** A manifest entry; `fetchedAt` is its timestamp, whose fixed-width text sorts alike. */
  datatype Entry = Entry(resourceId: string, sha: Option<string>, bytes: nat, fetchedAt: nat, status: Status)

  datatype Manifest = Manifest(runId: string, entries: seq<Entry>)

  datatype IndexRow = IndexRow(sha: Option<string>, fetchedAt: nat, runId: string)

  /** `latest.json`: resource to its newest ok fetch. */
  type Index = map<string, IndexRow>

  // ----- What an index should say

  /** One ok fetch, as the index would record it. */
  datatype Offer = Offer(resourceId: string, row: IndexRow)

  function OfferOf(e: Entry, runId: string): Offer {
    Offer(e.resourceId, IndexRow(e.sha, e.fetchedAt, runId))
  }

  function OffersIn(entries: seq<Entry>, runId: string): set<Offer> {
    set k | 0 <= k < |entries| && entries[k].status == FetchOk :: OfferOf(entries[k], runId)
  }

  function Offers(m: Manifest): set<Offer> { OffersIn(m.entries, m.runId) }

  function AllOffers(ms: set<Manifest>): set<Offer> {
    set m, o | m in ms && o in Offers(m) :: o
  }

  /** The index holds, for each resource some offer names, one of its newest offers. */
  ghost predicate Newest(latest: Index, offers: set<Offer>) {
    && (forall r :: r in latest ==> Offer(r, latest[r]) in offers)
    && (forall o :: o in offers ==> o.resourceId in latest && o.row.fetchedAt <= latest[o.resourceId].fetchedAt)
  }

  /** No resource was fetched twice at one instant. */
  ghost predicate DistinctTimes(offers: set<Offer>) {
    forall o, p :: o in offers && p in offers && o.resourceId == p.resourceId && o.row.fetchedAt == p.row.fetchedAt ==> o == p
  }

  /** With distinct times the offers determine the index. */
  lemma NewestIsUnique(x: Index, y: Index, offers: set<Offer>)
    requires Newest(x, offers) && Newest(y, offers) && DistinctTimes(offers)
    ensures x == y
  {
    forall r | r in x ensures r in y && x[r] == y[r] {
      assert Offer(r, x[r]) in offers && Offer(r, y[r]) in offers;
    }
    forall r | r in y ensures r in x { assert Offer(r, y[r]) in offers; }
  }

  /** Taking in more offers never takes a resource away or back in time. */
  ghost predicate Advances(x: Index, y: Index) {
    forall r :: r in x ==> r in y && x[r].fetchedAt <= y[r].fetchedAt
  }

  lemma MoreOffersAdvance(x: Index, y: Index, few: set<Offer>, many: set<Offer>)
    requires Newest(x, few) && Newest(y, many) && few <= many
    ensures Advances(x, y)
  {
    forall r | r in x ensures r in y && x[r].fetchedAt <= y[r].fetchedAt {
      assert Offer(r, x[r]) in many;
    }
  }

  // ----- Merging a run in

  function Merged1(latest: Index, e: Entry, runId: string): Index {
    if e.status != FetchOk then latest
    else if e.resourceId in latest && latest[e.resourceId].fetchedAt >= e.fetchedAt then latest
    else latest[e.resourceId := IndexRow(e.sha, e.fetchedAt, runId)]
  }

  function MergedIn(latest: Index, entries: seq<Entry>, runId: string): Index
    decreases |entries|
  {
    if entries == [] then latest else MergedIn(Merged1(latest, entries[0], runId), entries[1..], runId)
  }

  /** A run whose fetches of a resource are no newer than the index's leaves its row alone,
      also when they are as new. */
  lemma {:induction false} NoNewerChangesNothing(latest: Index, entries: seq<Entry>, runId: string, r: string)
    requires r in latest
    requires forall k :: 0 <= k < |entries| && entries[k].status == FetchOk && entries[k].resourceId == r ==> entries[k].fetchedAt <= latest[r].fetchedAt
    ensures r in MergedIn(latest, entries, runId) && MergedIn(latest, entries, runId)[r] == latest[r]
    decreases |entries|
  {
    if entries != [] {
      assert entries[0] == entries[0] && forall k :: 0 <= k < |entries[1..]| ==> entries[1..][k] == entries[k + 1];
      NoNewerChangesNothing(Merged1(latest, entries[0], runId), entries[1..], runId, r);
    }
  }

  lemma OneEntryIsNewest(latest: Index, e: Entry, runId: string, offers: set<Offer>)
    requires Newest(latest, offers)
    ensures Newest(Merged1(latest, e, runId), offers + OffersIn([e], runId))
  {
    assert OffersIn([e], runId) == if e.status == FetchOk then {OfferOf(e, runId)} else {} by {
      assert [e][0] == e;
      if e.status == FetchOk { assert OfferOf([e][0], runId) in OffersIn([e], runId); }
    }
  }

  lemma OffersSplit(entries: seq<Entry>, runId: string)
    requires entries != []
    ensures OffersIn(entries, runId) == OffersIn([entries[0]], runId) + OffersIn(entries[1..], runId)
  {
    var all, first, rest := OffersIn(entries, runId), OffersIn([entries[0]], runId), OffersIn(entries[1..], runId);
    forall o ensures o in all <==> o in first || o in rest {
      if o in all {
        var k :| 0 <= k < |entries| && entries[k].status == FetchOk && o == OfferOf(entries[k], runId);
        if k == 0 { assert [entries[0]][0] == entries[k]; } else { assert entries[1..][k - 1] == entries[k]; }
      }
      if o in first { assert [entries[0]][0] == entries[0]; }
      if o in rest {
        var k :| 0 <= k < |entries[1..]| && entries[1..][k].status == FetchOk && o == OfferOf(entries[1..][k], runId);
        assert entries[k + 1] == entries[1..][k];
      }
    }
  }

  /** Merging a run's entries keeps the index the newest-ok fold of what it has taken in. */
  lemma {:induction false} MergeIsNewest(latest: Index, entries: seq<Entry>, runId: string, offers: set<Offer>)
    requires Newest(latest, offers)
    ensures Newest(MergedIn(latest, entries, runId), offers + OffersIn(entries, runId))
    decreases |entries|
  {
    hide Merged1, Newest;
    if entries == [] {
      assert offers + OffersIn([], runId) == offers;
    } else {
      OneEntryIsNewest(latest, entries[0], runId, offers);
      OffersSplit(entries, runId);
      var more := offers + OffersIn([entries[0]], runId);
      assert more + OffersIn(entries[1..], runId) == offers + OffersIn(entries, runId);
      MergeIsNewest(Merged1(latest, entries[0], runId), entries[1..], runId, more);
    }
  }

  /** Replaying manifests one after another from nothing. */
  function Replayed(latest: Index, ms: seq<Manifest>): Index
    decreases |ms|
  {
    if ms == [] then latest else Replayed(MergedIn(latest, ms[0].entries, ms[0].runId), ms[1..])
  }

  function SetOf<T>(s: seq<T>): set<T> { set x | x in s }

  lemma AllOffersAdd(ms: set<Manifest>, m: Manifest)
    ensures AllOffers(ms + {m}) == AllOffers(ms) + Offers(m)
  {
  }

  lemma {:induction false} ReplayIsNewest(latest: Index, ms: seq<Manifest>, before: set<Manifest>)
    requires Newest(latest, AllOffers(before))
    ensures Newest(Replayed(latest, ms), AllOffers(before + SetOf(ms)))
    decreases |ms|
  {
    hide Newest, MergedIn, AllOffers;
    if ms == [] {
      assert before + SetOf<Manifest>([]) == before;
    } else {
      AllOffersAdd(before, ms[0]);
      MergeIsNewest(latest, ms[0].entries, ms[0].runId, AllOffers(before));
      ReplayIsNewest(MergedIn(latest, ms[0].entries, ms[0].runId), ms[1..], before + {ms[0]});
      assert ms == [ms[0]] + ms[1..];
      assert before + {ms[0]} + SetOf(ms[1..]) == before + SetOf(ms);
    }
  }

  // ----- The store and its runs

  /** Every ok entry names bytes the store holds. */
  ghost predicate Backed(entries: seq<Entry>, objects: map<string, Body>) {
    forall k :: 0 <= k < |entries| && entries[k].status == FetchOk ==> entries[k].sha.Some? && entries[k].sha.value in objects
  }

  class RawStore {
    const hash: Body -> string
    var objects: map<string, Body>
    var manifests: map<string, Manifest>
    var latest: Index

    constructor (hash: Body -> string)
      ensures this.hash == hash && objects == map[] && manifests == map[] && latest == map[]
    {
      this.hash := hash;
      objects, manifests, latest := map[], map[], map[];
    }

    /** Every object is what its name says. */
    ghost predicate Intact()
      reads this
    {
      forall sha :: sha in objects ==> hash(objects[sha]) == sha
    }

    /** Each manifest is filed under its own run. */
    ghost predicate Filed()
      reads this
    {
      forall id :: id in manifests ==> manifests[id].runId == id
    }

    ghost function ManifestSet(): set<Manifest>
      reads this
    {
      set id | id in manifests :: manifests[id]
    }

    /** Store a body under its hash. A name already taken is left with the bytes it has,
        right or wrong: a tampered object stays for the sweep to find. */
    method PutObject(body: Body) returns (sha: string, newly: bool)
      modifies this`objects
      ensures sha == hash(body) && sha in objects
      ensures newly <==> sha !in old(objects)
      ensures objects == if newly then old(objects)[sha := body] else old(objects)
      ensures old(Intact()) ==> Intact()
    {
      sha := hash(body);
      if sha in objects { return sha, false; }
      objects := objects[sha := body];
      return sha, true;
    }

    /** `_merge_latest`, over the index in place. */
    method MergeLatest(entries: seq<Entry>, runId: string)
      modifies this`latest
      ensures latest == MergedIn(old(latest), entries, runId)
      ensures forall offers :: Newest(old(latest), offers) ==> Newest(latest, offers + OffersIn(entries, runId))
    {
      assert entries[0..] == entries;
      for k := 0 to |entries|
        invariant MergedIn(latest, entries[k..], runId) == MergedIn(old(latest), entries, runId)
      {
        assert entries[k..][1..] == entries[k + 1..];
        var e := entries[k];
        if e.status != FetchOk { continue; }
        if e.resourceId in latest && latest[e.resourceId].fetchedAt >= e.fetchedAt { continue; }
        latest := latest[e.resourceId := IndexRow(e.sha, e.fetchedAt, runId)];
      }
      forall offers | Newest(old(latest), offers) ensures Newest(latest, offers + OffersIn(entries, runId)) {
        MergeIsNewest(old(latest), entries, runId, offers);
      }
    }

    /** Rebuild the index from the manifests alone, oldest run first: afterwards it is the
        newest-ok fold of all of them, whatever it was before. */
    method RebuildLatest() returns (n: nat)
      modifies this`latest
      ensures n == |latest|
      ensures Newest(latest, AllOffers(ManifestSet()))
    {
      hide Newest, AllOffers, MergedIn, Replayed, SortedTexts;
      latest := map[];
      var paths := SortedTexts(manifests.Keys);
      NothingReplayed();
      var done: seq<Manifest> := [];
      for k := 0 to |paths|
        invariant |done| == k && forall i :: 0 <= i < k ==> paths[i] in manifests && done[i] == manifests[paths[i]]
        invariant latest == Replayed(map[], done)
      {
        assert paths[k] in paths;
        var m := manifests[paths[k]];
        MergeLatest(m.entries, m.runId);
        ReplayedLast(map[], done, m);
        done := done + [m];
      }
      assert SetOf(done) == ManifestSet() by { SameManifests(paths, done); }
      assert {} + SetOf(done) == SetOf(done);
      ReplayIsNewest(map[], done, {});
      return |latest|;
    }

    lemma SameManifests(paths: seq<string>, done: seq<Manifest>)
      requires |done| == |paths| && (forall id :: id in paths <==> id in manifests)
      requires forall i :: 0 <= i < |paths| ==> paths[i] in manifests && done[i] == manifests[paths[i]]
      ensures SetOf(done) == ManifestSet()
    {
      forall m ensures m in SetOf(done) <==> m in ManifestSet() {
        if m in ManifestSet() {
          var id :| id in manifests && manifests[id] == m;
          var i :| 0 <= i < |paths| && paths[i] == id;
          assert done[i] == m;
        }
      }
    }
  }

  lemma NothingReplayed()
    ensures Replayed(map[], []) == map[] && Newest(map[], AllOffers({}))
  {
    assert AllOffers({}) == {};
  }

  lemma {:induction false} ReplayedLast(latest: Index, ms: seq<Manifest>, m: Manifest)
    ensures Replayed(latest, ms + [m]) == MergedIn(Replayed(latest, ms), m.entries, m.runId)
    decreases |ms|
  {
    hide MergedIn;
    if ms == [] {
      assert [] + [m] == [m] && [m][1..] == [];
    } else {
      assert (ms + [m])[0] == ms[0] && (ms + [m])[1..] == ms[1..] + [m];
      ReplayedLast(MergedIn(latest, ms[0].entries, ms[0].runId), ms[1..], m);
    }
  }

  /** The recorder of one harvest run: entries buffer until `Close` makes them visible. */
  class RawRun {
    const store: RawStore
    const runId: string
    var entries: seq<Entry>

    constructor (store: RawStore, runId: string)
      ensures this.store == store && this.runId == runId && entries == []
    {
      this.store, this.runId, entries := store, runId, [];
    }

    method Record(resourceId: string, body: Option<Body>, status: Status, fetchedAt: nat) returns (newly: bool)
      modifies this`entries, store`objects
      ensures body.None? ==> !newly && store.objects == old(store.objects)
      ensures body.None? ==> entries == old(entries) + [Entry(resourceId, None, 0, fetchedAt, status)]
      ensures body.Some? ==> (newly <==> store.hash(body.value) !in old(store.objects))
      ensures body.Some? ==> store.objects == if newly then old(store.objects)[store.hash(body.value) := body.value] else old(store.objects)
      ensures body.Some? ==> entries == old(entries) + [Entry(resourceId, Some(store.hash(body.value)), |body.value|, fetchedAt, status)]
    {
      var sha: Option<string>, size := None, 0;
      newly := false;
      if body.Some? {
        var name;
        name, newly := store.PutObject(body.value);
        sha, size := Some(name), |body.value|;
      }
      entries := entries + [Entry(resourceId, sha, size, fetchedAt, status)];
    }

    /** Write the manifest and advance the index. Run after run, the index stays the
        newest-ok fold of every manifest written. */
    method Close()
      requires store.Filed() && runId !in store.manifests
      modifies store`manifests, store`latest
      ensures store.manifests == old(store.manifests)[runId := Manifest(runId, entries)] && store.Filed()
      ensures store.latest == MergedIn(old(store.latest), entries, runId)
      ensures Newest(old(store.latest), AllOffers(old(store.ManifestSet()))) ==> Newest(store.latest, AllOffers(store.ManifestSet()))
    {
      ghost var before := store.ManifestSet();
      var m := Manifest(runId, entries);
      store.manifests := store.manifests[runId := m];
      store.MergeLatest(entries, runId);
      AllOffersAdd(before, m);
      assert store.ManifestSet() == before + {m} by {
        assert m in store.ManifestSet() by { assert runId in store.manifests; }
        forall x | x in before ensures x in store.ManifestSet() {
          var id :| id in old(store.manifests) && old(store.manifests)[id] == x;
          assert id in store.manifests && store.manifests[id] == x;
        }
      }
      assert Offers(m) == OffersIn(entries, runId);
    }
  }

  // ----- The shared fetch loop body

  class Counters {
    var fetched: nat
    var identical: nat
    var skippedFresh: nat
    var errors: nat

    constructor ()
      ensures fetched == identical == skippedFresh == errors == 0
    {
      fetched, identical, skippedFresh, errors := 0, 0, 0, 0;
    }
  }

  /** What the fetcher did: raised, or returned a payload, with wire bytes or without. */
  datatype Fetched = Raised | Payload(wire: Option<Body>)

  datatype Outcome = SkippedFresh | Errored | Landed | BrokenContract

  predicate Fresh(latest: Index, resourceId: string, ttl: nat, now: nat) {
    resourceId in latest && now - latest[resourceId].fetchedAt <= ttl
  }

  /** An ok fetch of the resource, no longer ago than the time to live. */
  predicate Lately(e: Entry, resourceId: string, ttl: nat, now: nat) {
    e.status == FetchOk && e.resourceId == resourceId && now <= e.fetchedAt + ttl
  }

  ghost predicate FetchedLately(ms: set<Manifest>, resourceId: string, ttl: nat, now: nat) {
    exists m, k :: m in ms && 0 <= k < |m.entries| && Lately(m.entries[k], resourceId, ttl, now)
  }

  /** By an index that is the newest-ok fold of some manifests a resource is fresh exactly
      when one of them has such a fetch. */
  lemma FreshMeans(latest: Index, ms: set<Manifest>, resourceId: string, ttl: nat, now: nat)
    requires Newest(latest, AllOffers(ms))
    ensures Fresh(latest, resourceId, ttl, now) <==> FetchedLately(ms, resourceId, ttl, now)
  {
    if Fresh(latest, resourceId, ttl, now) {
      var o := Offer(resourceId, latest[resourceId]);
      assert o in AllOffers(ms);
      var m :| m in ms && o in Offers(m);
      var k :| 0 <= k < |m.entries| && m.entries[k].status == FetchOk && o == OfferOf(m.entries[k], m.runId);
      assert Lately(m.entries[k], resourceId, ttl, now);
    }
    if FetchedLately(ms, resourceId, ttl, now) {
      var m, k :| m in ms && 0 <= k < |m.entries| && Lately(m.entries[k], resourceId, ttl, now);
      var o := OfferOf(m.entries[k], m.runId);
      assert o in Offers(m) && o in AllOffers(ms);
    }
  }

  /** One resource of a harvest. Exactly one of the counters for skipped, errored and
      fetched moves, by one, and one entry is recorded, unless the payload broke the
      transport contract; and an ok entry always names stored bytes. */
  method RecordFetch(run: RawRun, counters: Counters, resourceId: string, ttl: nat, now: nat, fetched: Fetched)
    returns (outcome: Outcome)
    requires Backed(run.entries, run.store.objects)
    modifies run`entries, run.store`objects, counters
    ensures Backed(run.entries, run.store.objects)
    ensures outcome == SkippedFresh <==> ttl != 0 && Fresh(run.store.latest, resourceId, ttl, now)
    ensures forall ms :: Newest(run.store.latest, AllOffers(ms)) ==>
              (outcome == SkippedFresh <==> ttl != 0 && FetchedLately(ms, resourceId, ttl, now))
    ensures outcome == Errored <==> outcome != SkippedFresh && fetched.Raised?
    ensures outcome == BrokenContract <==> outcome != SkippedFresh && fetched == Payload(None)
    ensures counters.skippedFresh + counters.errors + counters.fetched ==
              old(counters.skippedFresh + counters.errors + counters.fetched) + (if outcome == BrokenContract then 0 else 1)
    ensures |run.entries| == |old(run.entries)| + (if outcome == BrokenContract then 0 else 1)
    ensures old(run.entries) <= run.entries
    ensures outcome == Landed ==> var e := run.entries[|run.entries| - 1];
              e == Entry(resourceId, Some(run.store.hash(fetched.wire.value)), |fetched.wire.value|, now, FetchOk)
    ensures (outcome == SkippedFresh || outcome == Errored) ==> var e := run.entries[|run.entries| - 1];
              e == Entry(resourceId, None, 0, now, if outcome == Errored then FetchErr else FetchSkipped)
    ensures counters.skippedFresh == old(counters.skippedFresh) + (if outcome == SkippedFresh then 1 else 0)
    ensures counters.errors == old(counters.errors) + (if outcome == Errored then 1 else 0)
    ensures counters.identical == old(counters.identical)
              + (if outcome == Landed && run.store.hash(fetched.wire.value) in old(run.store.objects) then 1 else 0)
  {
    forall ms | Newest(run.store.latest, AllOffers(ms))
      ensures Fresh(run.store.latest, resourceId, ttl, now) <==> FetchedLately(ms, resourceId, ttl, now)
    {
      FreshMeans(run.store.latest, ms, resourceId, ttl, now);
    }
    hide Newest, AllOffers, FetchedLately;
    if ttl != 0 && Fresh(run.store.latest, resourceId, ttl, now) {
      var _ := run.Record(resourceId, None, FetchSkipped, now);
      counters.skippedFresh := counters.skippedFresh + 1;
      return SkippedFresh;
    }
    if fetched.Raised? {
      var _ := run.Record(resourceId, None, FetchErr, now);
      counters.errors := counters.errors + 1;
      return Errored;
    }
    if fetched.wire.None? { return BrokenContract; }
    var newly := run.Record(resourceId, fetched.wire, FetchOk, now);
    counters.fetched := counters.fetched + 1;
    if !newly { counters.identical := counters.identical + 1; }
    return Landed;
  }
}
