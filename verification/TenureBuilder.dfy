/** Collapsing biennium observations into maximal tenure spans. */
module TenureBuilder {
  import opened Ordering
  import opened Terms
  import opened Tenure

  datatype Observation = Observation(memberId: string, kind: string, discriminator: string, biennium: Biennium, opensTenure: bool)

  /** What a tenure is of: member, kind, discriminator. */
  type Key = (string, string, string)

  function KeyOf(o: Observation): Key { (o.memberId, o.kind, o.discriminator) }

  function SpanKey(s: TenureSpan): Key { (s.memberId, s.kind, s.discriminator) }

  // ----- What the observations say

  ghost predicate Observed(obs: seq<Observation>, key: Key, b: int) {
    exists k :: 0 <= k < |obs| && KeyOf(obs[k]) == key && obs[k].biennium == b
  }

  ghost predicate Breaks(obs: seq<Observation>, key: Key, b: int) {
    exists k :: 0 <= k < |obs| && KeyOf(obs[k]) == key && obs[k].biennium == b && obs[k].opensTenure
  }

  /** A tenure starts in `b`: held then, and not simply carried on from two years before. */
  ghost predicate Starts(obs: seq<Observation>, key: Key, b: int) {
    Observed(obs, key, b) && (!Observed(obs, key, b - 2) || Breaks(obs, key, b))
  }

  /** A maximal run: held throughout, started once, and not carried on past its end. */
  ghost predicate Run(obs: seq<Observation>, key: Key, first: Biennium, last: Biennium) {
    && first <= last
    && Starts(obs, key, first)
    && (forall b: Biennium :: first <= b <= last ==> Observed(obs, key, b))
    && (forall b: Biennium :: first < b <= last ==> !Starts(obs, key, b))
    && (Observed(obs, key, last + 2) ==> Starts(obs, key, last + 2))
  }

  /** The span a run becomes: from the floor of its first biennium to the ceiling of its
      last, or open if that is the current one. */
  function SpanOf(key: Key, first: Biennium, last: Biennium, current: Biennium): TenureSpan {
    TenureSpan(key.0, key.1, key.2, first, last,
               BienniumStart(first), if last == current then None else Some(BienniumEnd(last)), last == current,
               Tenure.Observed, if last == current then Open else Tenure.Observed, Principal, None, None)
  }

  function SourceOrder(s: TenureSpan): SortKey {
    [Text(s.memberId), Text(s.kind), Text(s.discriminator), Num(s.startBiennium)]
  }

  /** No two spans share a source id. */
  ghost predicate DistinctSources(spans: seq<TenureSpan>) {
    forall i, j :: 0 <= i < j < |spans| ==> spans[i].SourceKey() != spans[j].SourceKey()
  }

  /** `spans` are the maximal runs of `obs`: each is one, under distinct ids, in id order,
      and every biennium that starts a tenure starts one of them. */
  ghost predicate MaximalRuns(obs: seq<Observation>, current: Biennium, spans: seq<TenureSpan>) {
    && SortedBy(spans, SourceOrder) && DistinctSources(spans)
    && (forall s :: s in spans ==> IsRunSpan(obs, current, s))
    && (forall key, b: Biennium :: Starts(obs, key, b) ==> StartedBy(spans, key, b))
  }

  ghost predicate IsRunSpan(obs: seq<Observation>, current: Biennium, s: TenureSpan) {
    s == SpanOf(SpanKey(s), s.startBiennium, s.endBiennium, current) && Run(obs, SpanKey(s), s.startBiennium, s.endBiennium)
  }

  ghost predicate StartedBy(spans: seq<TenureSpan>, key: Key, b: int) {
    exists i :: 0 <= i < |spans| && SpanKey(spans[i]) == key && spans[i].startBiennium == b
  }

  // ----- The builder

  /** One closed or growing run over the group `ordered`: consecutive, unbroken inside,
      and begun because nothing carried into it. */
  ghost predicate GoodRun(r: seq<int>, ordered: seq<int>, breaks: set<int>) {
    && r != []
    && (forall i :: 0 <= i < |r| ==> r[i] in ordered && r[i] == r[0] + 2 * i)
    && (forall i :: 0 < i < |r| ==> r[i] !in breaks)
    && (r[0] in breaks || r[0] - 2 !in ordered)
  }

  /** Nothing carries on past the run. */
  ghost predicate Ended(r: seq<int>, ordered: seq<int>, breaks: set<int>)
    requires r != []
  {
    var next := r[|r| - 1] + 2;
    next in ordered ==> next in breaks
  }

  ghost predicate InSomeRun(runs: seq<seq<int>>, b: int) {
    exists j :: 0 <= j < |runs| && b in runs[j]
  }

  /** Distinct odd start years, oldest first. */
  ghost predicate Ascending(s: seq<int>) {
    forall i, j :: 0 <= i < j < |s| ==> s[i] + 2 <= s[j]
  }

  ghost predicate HeadsAscend(runs: seq<seq<int>>) {
    && (forall i :: 0 <= i < |runs| ==> runs[i] != [])
    && (forall i, j :: 0 <= i < j < |runs| ==> runs[i][0] < runs[j][0])
  }

  /** The closed runs so far: good, ended, and in order before `head`. */
  ghost predicate RunsOk(runs: seq<seq<int>>, ordered: seq<int>, breaks: set<int>) {
    && HeadsAscend(runs)
    && forall j :: 0 <= j < |runs| ==> GoodRun(runs[j], ordered, breaks) && Ended(runs[j], ordered, breaks)
  }

  ghost predicate RunsBefore(runs: seq<seq<int>>, head: int) {
    forall i :: 0 <= i < |runs| && runs[i] != [] ==> runs[i][0] < head
  }

  method ConsecutiveRuns(ordered: seq<int>, breaks: set<int>) returns (runs: seq<seq<int>>)
    requires Ascending(ordered)
    ensures RunsOk(runs, ordered, breaks)
    ensures forall k :: 0 <= k < |ordered| ==> InSomeRun(runs, ordered[k])
  {
    hide InSomeRun, RunsOk, RunsBefore, GoodRun, Ended;
    runs := [];
    var current: seq<int> := [];
    NoRuns(ordered, breaks);
    for k := 0 to |ordered|
      invariant current == [] <==> k == 0
      invariant current != [] ==> GoodRun(current, ordered, breaks) && current[|current| - 1] == ordered[k - 1]
      invariant RunsOk(runs, ordered, breaks) && (if current == [] then runs == [] else RunsBefore(runs, current[0]))
      invariant forall i :: 0 <= i < k ==> ordered[i] in current || InSomeRun(runs, ordered[i])
    {
      var b := ordered[k];
      NothingBetween(ordered, k);
      if current != [] && (b != current[|current| - 1] + 2 || b in breaks) {
        RunCloses(runs, current, ordered, breaks, k);
        RunsGrow(runs, current);
        runs := runs + [current];
        current := [];
      }
      RunGrows(current, ordered, breaks, k);
      current := current + [b];
    }
    if current != [] {
      AtTheTop(ordered);
      LastRunCloses(runs, current, ordered, breaks);
      RunsGrow(runs, current);
      runs := runs + [current];
    }
  }

  lemma NoRuns(ordered: seq<int>, breaks: set<int>)
    ensures RunsOk([], ordered, breaks) && forall head :: RunsBefore([], head)
  {
  }

  lemma RunCloses(runs: seq<seq<int>>, current: seq<int>, ordered: seq<int>, breaks: set<int>, k: nat)
    requires Ascending(ordered) && 0 < k < |ordered|
    requires RunsOk(runs, ordered, breaks) && GoodRun(current, ordered, breaks) && RunsBefore(runs, current[0])
    requires current[|current| - 1] == ordered[k - 1]
    requires ordered[k] != ordered[k - 1] + 2 || ordered[k] in breaks
    ensures RunsOk(runs + [current], ordered, breaks) && RunsBefore(runs + [current], ordered[k])
  {
    NothingBetween(ordered, k);
    assert current[0] <= current[|current| - 1] < ordered[k];
  }

  lemma LastRunCloses(runs: seq<seq<int>>, current: seq<int>, ordered: seq<int>, breaks: set<int>)
    requires RunsOk(runs, ordered, breaks) && GoodRun(current, ordered, breaks) && RunsBefore(runs, current[0])
    requires current[|current| - 1] + 2 !in ordered
    ensures RunsOk(runs + [current], ordered, breaks)
  {
  }

  /** Between one held biennium and the next there is none. */
  lemma NothingBetween(ordered: seq<int>, k: nat)
    requires Ascending(ordered) && k < |ordered|
    ensures k == 0 ==> ordered[0] - 2 !in ordered
    ensures k > 0 && ordered[k] != ordered[k - 1] + 2 ==> ordered[k] - 2 !in ordered && ordered[k - 1] + 2 !in ordered
  {
    forall l | 0 <= l < |ordered| && k > 0 && ordered[k] != ordered[k - 1] + 2
      ensures ordered[l] != ordered[k] - 2 && ordered[l] != ordered[k - 1] + 2
    {
      assert ordered[k - 1] + 2 < ordered[k];
      if l < k - 1 { assert ordered[l] < ordered[k - 1]; }
      if l > k { assert ordered[k] < ordered[l]; }
    }
  }

  lemma AtTheTop(ordered: seq<int>)
    requires Ascending(ordered) && ordered != []
    ensures ordered[|ordered| - 1] + 2 !in ordered
  {
  }

  lemma RunsGrow(runs: seq<seq<int>>, r: seq<int>)
    ensures forall b :: InSomeRun(runs, b) || b in r ==> InSomeRun(runs + [r], b)
  {
    forall b | InSomeRun(runs, b) || b in r ensures InSomeRun(runs + [r], b) {
      if b in r {
        assert (runs + [r])[|runs|] == r;
      } else {
        var j :| 0 <= j < |runs| && b in runs[j];
        assert (runs + [r])[j] == runs[j];
      }
    }
  }

  lemma RunGrows(current: seq<int>, ordered: seq<int>, breaks: set<int>, k: nat)
    requires k < |ordered|
    requires current != [] ==> GoodRun(current, ordered, breaks)
    requires current != [] ==> ordered[k] == current[|current| - 1] + 2 && ordered[k] !in breaks
    requires current == [] ==> ordered[k] in breaks || ordered[k] - 2 !in ordered
    ensures GoodRun(current + [ordered[k]], ordered, breaks)
    ensures current != [] ==> (current + [ordered[k]])[0] == current[0]
  {
  }

  /** The group's lists say what the observations say. */
  ghost predicate GroupOf(obs: seq<Observation>, key: Key, ordered: seq<int>, breaks: set<int>) {
    && (forall b :: b in ordered <==> Observed(obs, key, b))
    && (forall b :: b in breaks <==> Breaks(obs, key, b))
  }

  lemma ObservedOdd(obs: seq<Observation>, key: Key, b: int)
    requires Observed(obs, key, b)
    ensures b % 2 == 1 && 1 <= b < LAST_YEAR
  {
  }

  /** A good, ended run of the group is a maximal run of the observations. */
  lemma GoodRunIsRun(obs: seq<Observation>, key: Key, ordered: seq<int>, breaks: set<int>, r: seq<int>)
    requires GroupOf(obs, key, ordered, breaks) && GoodRun(r, ordered, breaks) && Ended(r, ordered, breaks)
    ensures r[0] % 2 == 1 && 1 <= r[0] < LAST_YEAR && r[|r| - 1] % 2 == 1 && 1 <= r[|r| - 1] < LAST_YEAR
    ensures Run(obs, key, r[0], r[|r| - 1])
    ensures forall i :: 0 < i < |r| ==> !Starts(obs, key, r[i])
  {
    hide Observed, Breaks;
    ObservedOdd(obs, key, r[0]);
    ObservedOdd(obs, key, r[|r| - 1]);
    forall i | 0 < i < |r| ensures !Starts(obs, key, r[i]) {
      assert r[i - 1] == r[i] - 2;
    }
    forall b: Biennium | r[0] <= b <= r[|r| - 1] ensures Observed(obs, key, b) && (b > r[0] ==> !Starts(obs, key, b)) {
      assert r[(b - r[0]) / 2] == b;
    }
  }

  function Years(b: int): SortKey { [Num(b)] }

  /** `sorted(biennia)` */
  method SortedBienniums(held: set<Biennium>) returns (r: seq<int>)
    ensures forall b :: b in r <==> b in held
    ensures Ascending(r)
  {
    var list: seq<int>, rest := [], held;
    while rest != {}
      invariant rest <= held && Distinct(list)
      invariant forall b :: b in list <==> b in held && b !in rest
      decreases rest
    {
      var b :| b in rest;
      list, rest := list + [b], rest - {b};
    }
    SortBySorts(list, Years);
    SameMultisetDistinct(list, SortBy(list, Years));
    r := SortBy(list, Years);
    forall i, j | 0 <= i < j < |r| ensures r[i] + 2 <= r[j] {
      assert KeyLe(Years(r[i]), Years(r[j])) && r[i] in r && r[j] in r;
    }
  }

  /** One key's spans are its maximal runs, oldest first. */
  ghost predicate KeyRuns(obs: seq<Observation>, current: Biennium, key: Key, spans: seq<TenureSpan>) {
    && (forall i :: 0 <= i < |spans| ==> IsRunSpan(obs, current, spans[i]) && SpanKey(spans[i]) == key)
    && (forall i, j :: 0 <= i < j < |spans| ==> spans[i].startBiennium < spans[j].startBiennium)
    && (forall b :: Starts(obs, key, b) ==> StartedBy(spans, key, b))
  }

  method SpansOfKey(ghost obs: seq<Observation>, key: Key, held: set<Biennium>, breaks: set<Biennium>, current: Biennium)
    returns (spans: seq<TenureSpan>)
    requires forall b :: b in held <==> Observed(obs, key, b)
    requires forall b :: b in breaks <==> Breaks(obs, key, b)
    ensures KeyRuns(obs, current, key, spans)
  {
    hide GroupOf, RunsOk, SpanOfRun, SpanOf, Starts, InSomeRun, KeyRuns, Ascending;
    var ordered := SortedBienniums(held);
    GroupSays(obs, key, held, breaks, ordered);
    var runs := ConsecutiveRuns(ordered, breaks);
    spans := [];
    for k := 0 to |runs|
      invariant |spans| == k
      invariant forall i :: 0 <= i < k ==> SpanOfRun(obs, current, key, runs[i], spans[i])
    {
      RunBecomesSpan(obs, current, key, ordered, breaks, runs, k);
      spans := spans + [SpanOf(key, runs[k][0], runs[k][|runs[k]| - 1], current)];
    }
    SpansAreKeyRuns(obs, current, key, ordered, breaks, runs, spans);
  }

  lemma GroupSays(obs: seq<Observation>, key: Key, held: set<Biennium>, breaks: set<Biennium>, ordered: seq<int>)
    requires forall b :: b in held <==> Observed(obs, key, b)
    requires forall b :: b in breaks <==> Breaks(obs, key, b)
    requires forall b :: b in ordered <==> b in held
    ensures GroupOf(obs, key, ordered, breaks)
  {
    forall b: int | Observed(obs, key, b) ensures b in ordered { ObservedOdd(obs, key, b); }
    forall b: int | Breaks(obs, key, b) ensures b in breaks {
      assert Observed(obs, key, b);
      ObservedOdd(obs, key, b);
    }
  }

  ghost predicate SpanOfRun(obs: seq<Observation>, current: Biennium, key: Key, run: seq<int>, s: TenureSpan) {
    run != [] && IsRunSpan(obs, current, s) && SpanKey(s) == key && s.startBiennium == run[0]
  }

  lemma RunBecomesSpan(obs: seq<Observation>, current: Biennium, key: Key, ordered: seq<int>, breaks: set<int>, runs: seq<seq<int>>, k: nat)
    requires GroupOf(obs, key, ordered, breaks) && RunsOk(runs, ordered, breaks) && k < |runs|
    ensures var run := runs[k];
            && run != []
            && run[0] % 2 == 1 && 1 <= run[0] < LAST_YEAR && run[|run| - 1] % 2 == 1 && 1 <= run[|run| - 1] < LAST_YEAR
            && SpanOfRun(obs, current, key, run, SpanOf(key, run[0], run[|run| - 1], current))
  {
    GoodRunIsRun(obs, key, ordered, breaks, runs[k]);
    hide Run, GroupOf, GoodRun, Ended;
  }

  lemma SpansAreKeyRuns(obs: seq<Observation>, current: Biennium, key: Key, ordered: seq<int>, breaks: set<int>, runs: seq<seq<int>>, spans: seq<TenureSpan>)
    requires GroupOf(obs, key, ordered, breaks) && RunsOk(runs, ordered, breaks) && |spans| == |runs|
    requires forall k :: 0 <= k < |ordered| ==> InSomeRun(runs, ordered[k])
    requires forall i :: 0 <= i < |spans| ==> SpanOfRun(obs, current, key, runs[i], spans[i])
    ensures KeyRuns(obs, current, key, spans)
  {
    hide GroupOf, GoodRun, Ended, IsRunSpan, Starts, InSomeRun;
    forall b | Starts(obs, key, b) ensures StartedBy(spans, key, b) {
      StartsHeadsRun(obs, key, ordered, breaks, runs, b);
      var j :| 0 <= j < |runs| && runs[j] != [] && runs[j][0] == b;
      assert SpanOfRun(obs, current, key, runs[j], spans[j]);
    }
  }

  lemma StartsHeadsRun(obs: seq<Observation>, key: Key, ordered: seq<int>, breaks: set<int>, runs: seq<seq<int>>, b: int)
    requires GroupOf(obs, key, ordered, breaks) && RunsOk(runs, ordered, breaks) && Starts(obs, key, b)
    requires forall k :: 0 <= k < |ordered| ==> InSomeRun(runs, ordered[k])
    ensures exists j :: 0 <= j < |runs| && runs[j] != [] && runs[j][0] == b
  {
    assert b in ordered;
    var j :| 0 <= j < |runs| && b in runs[j];
    var i :| 0 <= i < |runs[j]| && runs[j][i] == b;
    GoodRunIsRun(obs, key, ordered, breaks, runs[j]);
  }

  // ----- The whole build

  lemma OneMoreObservation(obs: seq<Observation>, k: nat, key: Key, b: int)
    requires k < |obs|
    ensures Observed(obs[..k + 1], key, b) <==> Observed(obs[..k], key, b) || (KeyOf(obs[k]) == key && obs[k].biennium == b)
    ensures Breaks(obs[..k + 1], key, b) <==> Breaks(obs[..k], key, b) || (KeyOf(obs[k]) == key && obs[k].biennium == b && obs[k].opensTenure)
  {
    var less, more := obs[..k], obs[..k + 1];
    assert more[k] == obs[k] && forall l :: 0 <= l < k ==> more[l] == less[l];
  }

  function Get(m: map<Key, set<Biennium>>, key: Key): set<Biennium> {
    if key in m then m[key] else {}
  }

  method Group(obs: seq<Observation>) returns (grouped: map<Key, set<Biennium>>, breaks: map<Key, set<Biennium>>)
    ensures forall key, b :: b in Get(grouped, key) <==> Observed(obs, key, b)
    ensures forall key, b :: b in Get(breaks, key) <==> Breaks(obs, key, b)
  {
    grouped, breaks := map[], map[];
    for k := 0 to |obs|
      invariant forall key, b :: b in Get(grouped, key) <==> Observed(obs[..k], key, b)
      invariant forall key, b :: b in Get(breaks, key) <==> Breaks(obs[..k], key, b)
    {
      var o, key := obs[k], KeyOf(obs[k]);
      grouped := grouped[key := Get(grouped, key) + {o.biennium}];
      if o.opensTenure { breaks := breaks[key := Get(breaks, key) + {o.biennium}]; }
      forall key, b
        ensures b in Get(grouped, key) <==> Observed(obs[..k + 1], key, b)
        ensures b in Get(breaks, key) <==> Breaks(obs[..k + 1], key, b)
      {
        OneMoreObservation(obs, k, key, b);
        hide Observed, Breaks;
      }
    }
    assert obs[..|obs|] == obs;
  }

  /** Every span is a maximal run, none twice. */
  ghost predicate RunsUnordered(obs: seq<Observation>, current: Biennium, spans: seq<TenureSpan>) {
    DistinctSources(spans) && forall i :: 0 <= i < |spans| ==> IsRunSpan(obs, current, spans[i])
  }

  lemma AddKey(obs: seq<Observation>, current: Biennium, spans: seq<TenureSpan>, key: Key, more: seq<TenureSpan>)
    requires RunsUnordered(obs, current, spans) && KeyRuns(obs, current, key, more)
    requires forall i :: 0 <= i < |spans| ==> SpanKey(spans[i]) != key
    ensures RunsUnordered(obs, current, spans + more)
    ensures forall b :: Starts(obs, key, b) ==> StartedBy(spans + more, key, b)
    ensures forall other, b :: StartedBy(spans, other, b) ==> StartedBy(spans + more, other, b)
  {
    hide IsRunSpan, Starts;
    var all := spans + more;
    forall b | Starts(obs, key, b) ensures StartedBy(all, key, b) {
      var i :| 0 <= i < |more| && SpanKey(more[i]) == key && more[i].startBiennium == b;
      assert all[|spans| + i] == more[i];
    }
    forall other, b | StartedBy(spans, other, b) ensures StartedBy(all, other, b) {
      var i :| 0 <= i < |spans| && SpanKey(spans[i]) == other && spans[i].startBiennium == b;
      assert all[i] == spans[i];
    }
  }

  /** The builder returns the maximal runs of what it was shown. */
  method BuildTenureSpans(obs: seq<Observation>, current: Biennium) returns (r: seq<TenureSpan>)
    ensures MaximalRuns(obs, current, r)
  {
    hide Observed, Breaks, Starts, IsRunSpan, StartedBy, KeyRuns, RunsUnordered;
    var grouped, breaks := Group(obs);
    var spans: seq<TenureSpan> := [];
    NoSpans(obs, current);
    var keys := grouped.Keys;
    while keys != {}
      invariant keys <= grouped.Keys
      invariant RunsUnordered(obs, current, spans)
      invariant forall i :: 0 <= i < |spans| ==> SpanKey(spans[i]) !in keys
      invariant forall key, b :: key in grouped.Keys - keys && Starts(obs, key, b) ==> StartedBy(spans, key, b)
      decreases keys
    {
      var key :| key in keys;
      var more := SpansOfKey(obs, key, grouped[key], Get(breaks, key), current);
      AddKey(obs, current, spans, key, more);
      KeyRunsKey(obs, current, key, more);
      spans := spans + more;
      keys := keys - {key};
    }
    SortBySorts(spans, SourceOrder);
    r := SortBy(spans, SourceOrder);
    SortedRuns(obs, current, spans, r);
    forall key, b: Biennium | Starts(obs, key, b) ensures StartedBy(r, key, b) {
      StartsAreObserved(obs, key, b);
      assert b in Get(grouped, key);
      StartedBySame(spans, r, key, b);
    }
  }

  lemma NoSpans(obs: seq<Observation>, current: Biennium)
    ensures RunsUnordered(obs, current, [])
  {
  }

  lemma KeyRunsKey(obs: seq<Observation>, current: Biennium, key: Key, spans: seq<TenureSpan>)
    requires KeyRuns(obs, current, key, spans)
    ensures forall i :: 0 <= i < |spans| ==> SpanKey(spans[i]) == key
  {
  }

  lemma StartsAreObserved(obs: seq<Observation>, key: Key, b: int)
    requires Starts(obs, key, b)
    ensures Observed(obs, key, b)
  {
  }

  lemma StartedBySame(s: seq<TenureSpan>, t: seq<TenureSpan>, key: Key, b: int)
    requires StartedBy(s, key, b) && forall x :: x in s <==> x in t
    ensures StartedBy(t, key, b)
  {
    var i :| 0 <= i < |s| && SpanKey(s[i]) == key && s[i].startBiennium == b;
    assert s[i] in t;
  }

  lemma SortedRuns(obs: seq<Observation>, current: Biennium, s: seq<TenureSpan>, t: seq<TenureSpan>)
    requires RunsUnordered(obs, current, s) && multiset(s) == multiset(t)
    ensures DistinctSources(t) && forall x :: x in t ==> IsRunSpan(obs, current, x)
  {
    hide IsRunSpan;
    SameMultisetSameElements(s, t);
    SourcesStayDistinct(s, t);
  }

  lemma SourcesStayDistinct(s: seq<TenureSpan>, t: seq<TenureSpan>)
    requires DistinctSources(s) && multiset(s) == multiset(t)
    ensures DistinctSources(t)
  {
    SameMultisetDistinct(s, t);
    SameMultisetSameElements(s, t);
    forall i, j | 0 <= i < j < |t| ensures t[i].SourceKey() != t[j].SourceKey() {
      assert t[i] in s && t[j] in s && t[i] != t[j];
      var k :| 0 <= k < |s| && s[k] == t[i];
      var l :| 0 <= l < |s| && s[l] == t[j];
      assert k != l;
    }
  }

  // ----- What follows of any list of maximal runs

  lemma IdsAreStarts(obs: seq<Observation>, current: Biennium, spans: seq<TenureSpan>, key: Key, b: int)
    requires MaximalRuns(obs, current, spans)
    ensures StartedBy(spans, key, b) <==> Starts(obs, key, b)
  {
    hide Observed, Breaks;
    if StartedBy(spans, key, b) {
      var i :| 0 <= i < |spans| && SpanKey(spans[i]) == key && spans[i].startBiennium == b;
      assert spans[i] in spans;
    }
    if Starts(obs, key, b) { ObservedOdd(obs, key, b); }
  }

  ghost predicate CoveredBy(s: TenureSpan, key: Key, b: int) {
    SpanKey(s) == key && s.startBiennium <= b <= s.endBiennium && b % 2 == 1
  }

  /** The start a held biennium was carried on from. */
  lemma {:induction false} CarriedFrom(obs: seq<Observation>, key: Key, b: int) returns (first: int)
    requires Observed(obs, key, b)
    ensures Starts(obs, key, first) && first <= b && b % 2 == 1 && first % 2 == 1
    ensures forall c: Biennium :: first < c <= b ==> Observed(obs, key, c) && !Starts(obs, key, c)
    decreases b
  {
    ObservedOdd(obs, key, b);
    if Starts(obs, key, b) {
      first := b;
    } else {
      first := CarriedFrom(obs, key, b - 2);
    }
  }

  /** Two runs from one start are one run. */
  lemma RunEndsOnce(obs: seq<Observation>, key: Key, first: Biennium, e: Biennium, f: Biennium)
    requires Run(obs, key, first, e) && Run(obs, key, first, f)
    ensures e == f
  {
    hide Observed, Breaks, Starts;
    if e < f { assert false; }
    if f < e { assert false; }
  }

  /** Exactness: the bienniums the spans cover are the bienniums observed, each covered by
      one span and one only. */
  lemma ExpansionIsExact(obs: seq<Observation>, current: Biennium, spans: seq<TenureSpan>, key: Key, b: int)
    requires MaximalRuns(obs, current, spans)
    ensures Observed(obs, key, b) <==> exists i :: 0 <= i < |spans| && CoveredBy(spans[i], key, b)
    ensures forall i, j :: 0 <= i < |spans| && 0 <= j < |spans| && CoveredBy(spans[i], key, b) && CoveredBy(spans[j], key, b) ==> i == j
  {
    hide Breaks, SortedBy;
    forall i | 0 <= i < |spans| && CoveredBy(spans[i], key, b) ensures Observed(obs, key, b) {
      assert spans[i] in spans;
      ObservedCovered(obs, current, spans[i], key, b);
    }
    if Observed(obs, key, b) {
      var first := CarriedFrom(obs, key, b);
      ObservedOdd(obs, key, first);
      IdsAreStarts(obs, current, spans, key, first);
      var i :| 0 <= i < |spans| && SpanKey(spans[i]) == key && spans[i].startBiennium == first;
      assert spans[i] in spans;
      ReachesCarried(obs, key, first, spans[i].endBiennium, b);
      assert CoveredBy(spans[i], key, b);
    }
    forall i, j | 0 <= i < |spans| && 0 <= j < |spans| && CoveredBy(spans[i], key, b) && CoveredBy(spans[j], key, b) ensures i == j {
      assert spans[i] in spans && spans[j] in spans;
      CoveredOnce(obs, current, spans[i], spans[j], key, b);
      if i != j { assert false; }
    }
  }

  lemma ObservedCovered(obs: seq<Observation>, current: Biennium, s: TenureSpan, key: Key, b: int)
    requires IsRunSpan(obs, current, s) && CoveredBy(s, key, b)
    ensures Observed(obs, key, b)
  {
    hide Observed, Starts, SpanOf;
    var c: Biennium := b;
    assert s.startBiennium <= c <= s.endBiennium;
  }

  lemma CoveredOnce(obs: seq<Observation>, current: Biennium, s: TenureSpan, t: TenureSpan, key: Key, b: int)
    requires IsRunSpan(obs, current, s) && IsRunSpan(obs, current, t) && CoveredBy(s, key, b) && CoveredBy(t, key, b)
    ensures s.SourceKey() == t.SourceKey()
  {
    hide Observed, Starts, SpanOf;
    var c, d := s.startBiennium, t.startBiennium;
    if c < d { assert false; }
    if d < c { assert false; }
  }

  /** A run from `first` does not stop short of what was carried on from it. */
  lemma ReachesCarried(obs: seq<Observation>, key: Key, first: Biennium, last: Biennium, b: int)
    requires Run(obs, key, first, last) && b % 2 == 1 && Observed(obs, key, b)
    requires forall c: Biennium :: first < c <= b ==> Observed(obs, key, c) && !Starts(obs, key, c)
    ensures b <= last
  {
    ObservedOdd(obs, key, b);
    hide Observed, Starts;
    if last < b { assert false; }
  }

  /** At most one span of a key is open. */
  lemma OneOpenPerKey(obs: seq<Observation>, current: Biennium, spans: seq<TenureSpan>, i: nat, j: nat)
    requires MaximalRuns(obs, current, spans) && i < |spans| && j < |spans|
    requires SpanKey(spans[i]) == SpanKey(spans[j]) && spans[i].isActive && spans[j].isActive
    ensures i == j
  {
    assert spans[i] in spans && spans[j] in spans;
    ExpansionIsExact(obs, current, spans, SpanKey(spans[i]), current);
    assert CoveredBy(spans[i], SpanKey(spans[i]), current) && CoveredBy(spans[j], SpanKey(spans[i]), current);
  }

  lemma SourceOrderApart(s: TenureSpan, t: TenureSpan)
    requires SourceOrder(s) == SourceOrder(t)
    ensures s.SourceKey() == t.SourceKey()
  {
    var a, b := SourceOrder(s), SourceOrder(t);
    assert a[0] == b[0] && a[1] == b[1] && a[2] == b[2] && a[3] == b[3];
  }

  lemma SourcesKeyApart(spans: seq<TenureSpan>)
    requires DistinctSources(spans)
    ensures KeyedApart(spans, SourceOrder) && Distinct(spans)
  {
    forall i, j | 0 <= i < |spans| && 0 <= j < |spans| && SourceOrder(spans[i]) == SourceOrder(spans[j]) ensures spans[i] == spans[j] {
      SourceOrderApart(spans[i], spans[j]);
      if i < j { assert false; }
      if j < i { assert false; }
    }
  }

  lemma SameRuns(o: seq<Observation>, p: seq<Observation>, current: Biennium, x: seq<TenureSpan>, y: seq<TenureSpan>)
    requires MaximalRuns(o, current, x) && MaximalRuns(p, current, y)
    requires forall key, b :: (Observed(o, key, b) <==> Observed(p, key, b)) && (Breaks(o, key, b) <==> Breaks(p, key, b))
    ensures forall s :: s in x ==> s in y
  {
    hide Observed, Breaks, SortedBy, DistinctSources;
    forall s | s in x ensures s in y {
      var key := SpanKey(s);
      assert Starts(p, key, s.startBiennium);
      var i :| 0 <= i < |y| && SpanKey(y[i]) == key && y[i].startBiennium == s.startBiennium;
      assert y[i] in y;
      RunSame(o, p, key, s.startBiennium, s.endBiennium);
      RunEndsOnce(p, key, s.startBiennium, s.endBiennium, y[i].endBiennium);
    }
  }

  lemma RunSame(o: seq<Observation>, p: seq<Observation>, key: Key, first: Biennium, last: Biennium)
    requires Run(o, key, first, last)
    requires forall k, b :: (Observed(o, k, b) <==> Observed(p, k, b)) && (Breaks(o, k, b) <==> Breaks(p, k, b))
    ensures Run(p, key, first, last)
  {
    hide Observed, Breaks;
    forall b ensures Starts(o, key, b) <==> Starts(p, key, b) {
      assert Observed(o, key, b - 2) <==> Observed(p, key, b - 2);
    }
    hide Starts;
    assert Observed(o, key, last + 2) <==> Observed(p, key, last + 2);
  }

  /** The build is a function of what was observed: neither the order of the observations
      nor saying one twice makes a difference. */
  lemma OrderAndDuplicatesDoNotMatter(o: seq<Observation>, p: seq<Observation>, current: Biennium, x: seq<TenureSpan>, y: seq<TenureSpan>)
    requires MaximalRuns(o, current, x) && MaximalRuns(p, current, y)
    requires forall ob :: ob in o <==> ob in p
    ensures x == y
  {
    SameFacts(o, p);
    SameFacts(p, o);
    SameRuns(o, p, current, x, y);
    SameRuns(p, o, current, y, x);
    SourcesKeyApart(x);
    SourcesKeyApart(y);
    DistinctSameElements(x, y);
    SortedUnique(x, y, SourceOrder);
  }

  lemma SameFacts(o: seq<Observation>, p: seq<Observation>)
    requires forall ob :: ob in o ==> ob in p
    ensures forall key, b :: Observed(o, key, b) ==> Observed(p, key, b)
    ensures forall key, b :: Breaks(o, key, b) ==> Breaks(p, key, b)
  {
    forall key, b | Observed(o, key, b) ensures Observed(p, key, b) {
      var k :| 0 <= k < |o| && KeyOf(o[k]) == key && o[k].biennium == b;
      assert o[k] in p;
    }
    forall key, b | Breaks(o, key, b) ensures Breaks(p, key, b) {
      var k :| 0 <= k < |o| && KeyOf(o[k]) == key && o[k].biennium == b && o[k].opensTenure;
      assert o[k] in p;
    }
  }

  /** A later biennium, built in with whatever is then current, keeps every id there was,
      and adds one exactly when it starts a tenure: otherwise it extends the last. */
  lemma LaterBienniumAddsAtMostOneId(obs: seq<Observation>, o: Observation, current: Biennium, now: Biennium, x: seq<TenureSpan>, y: seq<TenureSpan>, key: Key, b: int)
    requires MaximalRuns(obs, current, x) && MaximalRuns(obs + [o], now, y)
    requires forall c :: Observed(obs, KeyOf(o), c) ==> c < o.biennium
    ensures StartedBy(y, key, b) <==> StartedBy(x, key, b) || (key == KeyOf(o) && b == o.biennium && (o.opensTenure || !Observed(obs, key, b - 2)))
  {
    IdsAreStarts(obs, current, x, key, b);
    IdsAreStarts(obs + [o], now, y, key, b);
    LaterFacts(obs, o, key, b);
    LaterFacts(obs, o, key, b - 2);
    hide Observed, Breaks, MaximalRuns, StartedBy;
  }

  lemma LaterFacts(obs: seq<Observation>, o: Observation, key: Key, b: int)
    ensures Observed(obs + [o], key, b) <==> Observed(obs, key, b) || (KeyOf(o) == key && o.biennium == b)
    ensures Breaks(obs + [o], key, b) <==> Breaks(obs, key, b) || (KeyOf(o) == key && o.biennium == b && o.opensTenure)
    ensures Breaks(obs, key, b) ==> Observed(obs, key, b)
  {
    var more := obs + [o];
    assert more[..|obs|] == obs && more[..|obs| + 1] == more;
    OneMoreObservation(more, |obs|, key, b);
  }

  /** What the builder emits is sound, windowless and keyed on the biennium it starts in. */
  lemma BuiltSpansAreSound(obs: seq<Observation>, current: Biennium, spans: seq<TenureSpan>)
    requires MaximalRuns(obs, current, spans)
    ensures forall s :: s in spans ==> s.Sound() && s.Windowless() && BienniumOf(s.validFrom) == s.startBiennium
  {
    hide IsRunSpan, TenureSpan.Sound, BienniumOf, SortedBy;
    forall s | s in spans ensures s.Sound() && s.Windowless() && BienniumOf(s.validFrom) == s.startBiennium {
      RunSpanIsSound(obs, current, s);
    }
  }

  lemma RunSpanIsSound(obs: seq<Observation>, current: Biennium, s: TenureSpan)
    requires IsRunSpan(obs, current, s)
    ensures s.Sound() && s.Windowless() && BienniumOf(s.validFrom) == s.startBiennium
  {
    hide Starts, Observed, BienniumOf;
    BienniumStartsThere(s.startBiennium);
    StartsBeforeItEnds(s.startBiennium, s.endBiennium);
    hide BienniumStart, BienniumEnd;
  }

  lemma BienniumStartsThere(b: Biennium)
    ensures BienniumOf(BienniumStart(b)) == b
  {
    BienniumLength(b);
    BienniumWindow(BienniumStart(b), b);
    hide BienniumOf, BienniumStart, BienniumEnd;
  }

  lemma StartsBeforeItEnds(b: Biennium, c: Biennium)
    requires b <= c
    ensures BienniumStart(b) <= BienniumEnd(c)
  {
    Jan1Monotone(b, c + 2);
    hide Jan1;
  }
}
