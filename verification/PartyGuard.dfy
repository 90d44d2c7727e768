/** The guard the party merge exists to keep: a member's runs are cut exactly where, in date
    order, one party's span follows another's. */
module PartyGuard {
  import opened Ordering
  import opened Terms
  import opened Tenure
  import opened TenureBuilder
  import opened PartyContinuity
  import opened PartyContinuityLaws
  import opened PartyMergeLaws

  /** Nothing comes before it, or something of another party. */
  predicate StartsRun(ordered: seq<TenureSpan>, k: nat)
    requires k < |ordered|
  {
    k == 0 || ordered[k - 1].discriminator != ordered[k].discriminator
  }

  /** How many cuts come before position `k`: the run the span there belongs to. */
  function RunIndex(ordered: seq<TenureSpan>, k: nat): nat
    requires k < |ordered|
  {
    if k == 0 then 0 else RunIndex(ordered, k - 1) + (if StartsRun(ordered, k) then 1 else 0)
  }

  /** The run has the span's party and its whole end, and starts with it if the span is the
      first of the run. */
  ghost predicate Follows(ordered: seq<TenureSpan>, runs: seq<TenureSpan>, k: nat)
    requires k < |ordered|
  {
    var i := RunIndex(ordered, k);
    && i < |runs|
    && runs[i].discriminator == ordered[k].discriminator
    && ordered[k].EndOrOpen() <= runs[i].EndOrOpen()
    && (StartsRun(ordered, k) ==> StartsAs(runs[i], ordered[k]))
  }

  predicate StartsAs(run: TenureSpan, s: TenureSpan) {
    run.SourceKey() == s.SourceKey() && run.validFrom == s.validFrom && run.startBasis == s.startBasis
  }

  /** The run ends no later than some span of it. */
  ghost predicate EndsInside(ordered: seq<TenureSpan>, runs: seq<TenureSpan>, i: nat)
    requires i < |runs|
  {
    exists k :: 0 <= k < |ordered| && EndsAt(ordered, runs[i], i, k)
  }

  predicate EndsAt(ordered: seq<TenureSpan>, run: TenureSpan, i: nat, k: nat)
    requires k < |ordered|
  {
    RunIndex(ordered, k) == i && run.EndOrOpen() == ordered[k].EndOrOpen()
  }

  /** `runs` are the spans of `ordered` joined between the cuts, and nowhere across one. */
  ghost predicate CutAtPartyChanges(ordered: seq<TenureSpan>, runs: seq<TenureSpan>) {
    && (forall k :: 0 <= k < |ordered| ==> Follows(ordered, runs, k))
    && |runs| == (if ordered == [] then 0 else RunIndex(ordered, |ordered| - 1) + 1)
    && (forall i :: 0 <= i < |runs| ==> EndsInside(ordered, runs, i))
  }

  // ----- Taking a span into a run, or not

  lemma {:induction false} IndexWidens(run: TenureSpan, rest: seq<TenureSpan>, wide: TenureSpan, k: nat)
    requires rest != [] && wide.discriminator == run.discriminator == rest[0].discriminator && k < |rest|
    ensures RunIndex([run] + rest, k + 1) == RunIndex([wide] + rest[1..], k)
    ensures k > 0 ==> (StartsRun([run] + rest, k + 1) <==> StartsRun([wide] + rest[1..], k))
    decreases k
  {
    var all, less := [run] + rest, [wide] + rest[1..];
    assert all[k + 1] == rest[k] && all[k] == (if k == 0 then run else rest[k - 1]);
    if k > 0 {
      assert less[k] == rest[k] && less[k - 1] == (if k == 1 then wide else rest[k - 1]);
      IndexWidens(run, rest, wide, k - 1);
    } else {
      assert RunIndex(all, 0) == 0;
    }
  }

  lemma {:induction false} IndexPrepends(run: TenureSpan, rest: seq<TenureSpan>, k: nat)
    requires rest != [] && run.discriminator != rest[0].discriminator && k < |rest|
    ensures RunIndex([run] + rest, k + 1) == RunIndex(rest, k) + 1
    ensures StartsRun([run] + rest, k + 1) <==> StartsRun(rest, k)
    decreases k
  {
    var all := [run] + rest;
    assert all[k + 1] == rest[k] && all[k] == (if k == 0 then run else rest[k - 1]);
    if k > 0 { IndexPrepends(run, rest, k - 1); } else { assert RunIndex(all, 0) == 0; }
  }

  lemma WidenedFollows(run: TenureSpan, rest: seq<TenureSpan>, runs: seq<TenureSpan>, k: nat)
    requires PlainSpan(run) && Plain(rest) && rest != [] && run.discriminator == rest[0].discriminator
    requires CutAtPartyChanges([Extend(run, rest[0])] + rest[1..], runs) && k <= |rest|
    ensures Follows([run] + rest, runs, k)
  {
    var wide := Extend(run, rest[0]);
    hide PlainSpan, Extend, RunIndex, CutAtPartyChanges;
    CutFollows([wide] + rest[1..], runs);
    ExtendReaches(run, rest[0]);
    if k == 0 {
      WidenedHeadFollows(run, rest, wide, runs);
    } else {
      IndexWidens(run, rest, wide, k - 1);
      WidenedTailFollows(run, rest, wide, runs, k);
    }
  }

  lemma CutFollows(ordered: seq<TenureSpan>, runs: seq<TenureSpan>)
    requires CutAtPartyChanges(ordered, runs)
    ensures forall k :: 0 <= k < |ordered| ==> Follows(ordered, runs, k)
  {
    hide Follows, RunIndex, EndsInside;
  }

  /** The widened run keeps the run's start, id and party, and ends with one of the two,
      no earlier than either. */
  lemma ExtendReaches(run: TenureSpan, s: TenureSpan)
    requires PlainSpan(run) && PlainSpan(s)
    ensures var wide := Extend(run, s);
            && StartsAs(wide, run) && wide.discriminator == run.discriminator
            && run.EndOrOpen() <= wide.EndOrOpen() && s.EndOrOpen() <= wide.EndOrOpen()
            && (wide.EndOrOpen() == run.EndOrOpen() || wide.EndOrOpen() == s.EndOrOpen())
  {
    hide PlainSpan;
  }

  lemma WidenedHeadFollows(run: TenureSpan, rest: seq<TenureSpan>, wide: TenureSpan, runs: seq<TenureSpan>)
    requires StartsAs(wide, run) && wide.discriminator == run.discriminator && run.EndOrOpen() <= wide.EndOrOpen()
    requires rest != [] && Follows([wide] + rest[1..], runs, 0)
    ensures Follows([run] + rest, runs, 0)
  {
  }

  lemma WidenedTailFollows(run: TenureSpan, rest: seq<TenureSpan>, wide: TenureSpan, runs: seq<TenureSpan>, k: nat)
    requires 0 < k <= |rest| && wide.discriminator == run.discriminator == rest[0].discriminator
    requires rest[0].EndOrOpen() <= wide.EndOrOpen() && Follows([wide] + rest[1..], runs, k - 1)
    requires RunIndex([run] + rest, k) == RunIndex([wide] + rest[1..], k - 1)
    requires k > 1 ==> (StartsRun([run] + rest, k) <==> StartsRun([wide] + rest[1..], k - 1))
    ensures Follows([run] + rest, runs, k)
  {
    hide RunIndex, TenureSpan.EndOrOpen, StartsAs;
    var all, less := [run] + rest, [wide] + rest[1..];
    assert all[k] == rest[k - 1];
    if k == 1 {
      assert all[0] == run && less[0] == wide;
    } else {
      assert less[k - 1] == rest[k - 1];
    }
  }

  lemma WidenedEnds(run: TenureSpan, rest: seq<TenureSpan>, runs: seq<TenureSpan>, i: nat)
    requires PlainSpan(run) && Plain(rest) && rest != [] && run.discriminator == rest[0].discriminator
    requires CutAtPartyChanges([Extend(run, rest[0])] + rest[1..], runs) && i < |runs|
    ensures EndsInside([run] + rest, runs, i)
  {
    var wide := Extend(run, rest[0]);
    var all, less := [run] + rest, [wide] + rest[1..];
    ExtendReaches(run, rest[0]);
    hide PlainSpan, Plain, Extend, Follows, StartsAs, TenureSpan.EndOrOpen;
    assert EndsInside(less, runs, i);
    hide CutAtPartyChanges;
    var k :| 0 <= k < |less| && EndsAt(less, runs[i], i, k);
    IndexWidens(run, rest, wide, k);
    assert all[0] == run && all[1] == rest[0] && all[k + 1] == rest[k];
    if k > 0 {
      assert less[k] == rest[k];
      hide RunIndex;
      assert EndsAt(all, runs[i], i, k + 1);
    } else {
      assert RunIndex(all, 0) == 0 && RunIndex(all, 1) == 0;
      assert EndsAt(all, runs[i], i, 0) || EndsAt(all, runs[i], i, 1);
    }
  }

  lemma PrependedFollows(run: TenureSpan, rest: seq<TenureSpan>, tail: seq<TenureSpan>, k: nat)
    requires rest != [] && run.discriminator != rest[0].discriminator
    requires CutAtPartyChanges(rest, tail) && k <= |rest|
    ensures Follows([run] + rest, [run] + tail, k)
  {
    var all, runs := [run] + rest, [run] + tail;
    assert all[0] == run;
    if k > 0 {
      IndexPrepends(run, rest, k - 1);
      assert Follows(rest, tail, k - 1);
      assert all[k] == rest[k - 1];
      assert runs[RunIndex(all, k)] == tail[RunIndex(rest, k - 1)];
    }
  }

  lemma PrependedEnds(run: TenureSpan, rest: seq<TenureSpan>, tail: seq<TenureSpan>, i: nat)
    requires rest != [] && run.discriminator != rest[0].discriminator
    requires CutAtPartyChanges(rest, tail) && i <= |tail|
    ensures EndsInside([run] + rest, [run] + tail, i)
  {
    var all, runs := [run] + rest, [run] + tail;
    assert all[0] == run;
    if i == 0 {
      assert EndsAt(all, runs[0], 0, 0);
    } else {
      assert EndsInside(rest, tail, i - 1);
      var k :| 0 <= k < |rest| && EndsAt(rest, tail[i - 1], i - 1, k);
      IndexPrepends(run, rest, k);
      assert all[k + 1] == rest[k];
      assert EndsAt(all, runs[i], i, k + 1);
    }
  }

  lemma {:induction false} RunsAreCut(run: TenureSpan, rest: seq<TenureSpan>)
    requires PlainSpan(run) && Plain(rest)
    ensures CutAtPartyChanges([run] + rest, Runs(run, rest))
    decreases |rest|
  {
    hide PlainSpan, Follows, EndsInside, Extend;
    var all, runs := [run] + rest, Runs(run, rest);
    if rest == [] {
      assert all == [run];
      OnlyRun(run);
    } else if rest[0].discriminator == run.discriminator {
      var wide := Extend(run, rest[0]);
      SameParty(run, rest[0]);
      RunsAreCut(wide, rest[1..]);
      IndexWidens(run, rest, wide, |rest| - 1);
      forall k | 0 <= k < |all| ensures Follows(all, runs, k) { WidenedFollows(run, rest, runs, k); }
      forall i | 0 <= i < |runs| ensures EndsInside(all, runs, i) { WidenedEnds(run, rest, runs, i); }
    } else {
      var tail := Runs(rest[0], rest[1..]);
      RunsAreCut(rest[0], rest[1..]);
      assert [rest[0]] + rest[1..] == rest;
      IndexPrepends(run, rest, |rest| - 1);
      forall k | 0 <= k < |all| ensures Follows(all, runs, k) { PrependedFollows(run, rest, tail, k); }
      forall i | 0 <= i < |runs| ensures EndsInside(all, runs, i) { PrependedEnds(run, rest, tail, i); }
    }
  }

  lemma SameParty(run: TenureSpan, next: TenureSpan)
    requires PlainSpan(run) && PlainSpan(next)
    ensures Extend(run, next).discriminator == run.discriminator
  {
  }

  lemma OnlyRun(run: TenureSpan)
    ensures CutAtPartyChanges([run], [run])
  {
    assert EndsAt([run], run, 0, 0);
  }

  // ----- The merge

  /** A member's runs are the member's party spans joined between changes of party, in date
      order: an output starts at a span exactly when that span is the member's first or
      follows one of another party, and then takes in every span up to the next change. */
  lemma MemberRunsAreCut(spans: seq<TenureSpan>, m: string)
    requires Plain(spans)
    ensures CutAtPartyChanges(DateOrdered(spans, m), MemberRuns(spans, m))
  {
    hide PlainSpan, CutAtPartyChanges, DateOrdered, Runs;
    var ordered := DateOrdered(spans, m);
    if ordered == [] {
      NothingToCut();
    } else {
      assert [ordered[0]] + ordered[1..] == ordered;
      RunsAreCut(ordered[0], ordered[1..]);
    }
  }

  lemma NothingToCut()
    ensures CutAtPartyChanges([], [])
  {
  }

  /** The member's party spans that come out of the merge are those runs and no others. */
  lemma OutputsAreTheRuns(spans: seq<TenureSpan>, m: string)
    requires Plain(spans)
    ensures multiset(Filter(Merged(spans), PartyOf(m))) == multiset(MemberRuns(spans, m))
  {
    hide PlainSpan, Filter, SortBy, MemberRuns, AllRuns, FirstSeen;
    SortBySorts(Unsorted(spans), SourceOrder);
    forall x ensures multiset(Filter(Merged(spans), PartyOf(m)))[x] == multiset(Filter(Unsorted(spans), PartyOf(m)))[x] {
      FilterMultiset(Merged(spans), PartyOf(m), x);
      FilterMultiset(Unsorted(spans), PartyOf(m), x);
    }
    PartyAmongUnsorted(spans, m);
  }

  lemma PartyAmongUnsorted(spans: seq<TenureSpan>, m: string)
    requires Plain(spans)
    ensures Filter(Unsorted(spans), PartyOf(m)) == MemberRuns(spans, m)
  {
    hide PlainSpan, Filter, SortBy, MemberRuns, AllRuns, FirstSeen;
    var pass, runs := Filter(spans, NotParty), AllRuns(spans, FirstSeen(spans));
    FilterAppend(pass, runs, PartyOf(m));
    forall i | 0 <= i < |pass| ensures !PartyOf(m)(pass[i]) { FilterMember(spans, NotParty, pass[i]); }
    FilterAllOrNone(pass, PartyOf(m));
    FilterTwice(runs, Of(m), PartyOf(m));
    SeenMembers(spans);
    AllRunsOf(spans, FirstSeen(spans), m);
    RunsOnlyOfSeen(spans, m);
    MemberRunsAlternate(spans, m);
    FilterAllOrNone(MemberRuns(spans, m), PartyOf(m));
    assert Filter([], PartyOf(m)) == [] by { FilterAllOrNone([], PartyOf(m)); }
    assert [] + MemberRuns(spans, m) == MemberRuns(spans, m);
  }

  /** No later run of these starts before or with `s`. */
  predicate LastToStart(runs: seq<TenureSpan>, i: nat, s: TenureSpan) {
    && i < |runs| && KeyLe(ByStart(runs[i]), ByStart(s))
    && forall j :: i < j < |runs| ==> !KeyLe(ByStart(runs[j]), ByStart(s))
  }

  /** Said of one span: with no two parties starting alike, the member's last output, in
      date order, to start no later than the span has the span's party and joins it. So no
      run reaches across a span of another party. */
  lemma LastOutputJoins(spans: seq<TenureSpan>, m: string, s: TenureSpan) returns (i: nat)
    requires Plain(spans) && DistinctSources(spans) && NoPartyTies(spans) && s in spans && PartyOf(m)(s)
    ensures DateOrdered(Merged(spans), m) == MemberRuns(spans, m)
    ensures LastToStart(MemberRuns(spans, m), i, s) && Joins(MemberRuns(spans, m)[i], s)
  {
    hide PlainSpan, DateOrdered, MemberRuns, Follows, EndsInside, StartsApart, DistinctSources, NoPartyTies, OneMember, ByStart;
    MergedMemberRuns(spans, m);
    DateOrderedIs(spans, m);
    MemberRunsAreCut(spans, m);
    MemberRunsAlternate(spans, m);
    var ordered, runs := DateOrdered(spans, m), MemberRuns(spans, m);
    var k :| 0 <= k < |ordered| && ordered[k] == s;
    i := RunIndex(ordered, k);
    DateOrderedApart(spans, m);
    HeadBefore(ordered, runs, m, k);
    forall j | i < j < |runs| ensures !KeyLe(ByStart(runs[j]), ByStart(s)) { HeadAfter(ordered, runs, m, k, j); }
    RunJoins(ordered, runs, m, k);
  }

  lemma RunJoins(ordered: seq<TenureSpan>, runs: seq<TenureSpan>, m: string, k: nat)
    requires OneMember(ordered, m) && OneMember(runs, m) && CutAtPartyChanges(ordered, runs) && k < |ordered|
    requires RunIndex(ordered, k) < |runs| && KeyLe(ByStart(runs[RunIndex(ordered, k)]), ByStart(ordered[k]))
    ensures Joins(runs[RunIndex(ordered, k)], ordered[k])
  {
    assert Follows(ordered, runs, k);
    ByStartMeans(runs[RunIndex(ordered, k)], ordered[k]);
    hide KeyLe, ByStart;
  }

  /** The position that heads run `i`: the one span of it that starts a run. */
  lemma {:induction false} HeadOf(ordered: seq<TenureSpan>, k: nat) returns (h: nat)
    requires k < |ordered|
    ensures h <= k && StartsRun(ordered, h) && RunIndex(ordered, h) == RunIndex(ordered, k)
    decreases k
  {
    if StartsRun(ordered, k) { h := k; } else { h := HeadOf(ordered, k - 1); }
  }

  lemma {:induction false} IndexGrows(ordered: seq<TenureSpan>, j: nat, k: nat)
    requires j <= k < |ordered|
    ensures RunIndex(ordered, j) <= RunIndex(ordered, k)
    decreases k
  {
    if j < k { IndexGrows(ordered, j, k - 1); }
  }

  lemma {:induction false} Reached(ordered: seq<TenureSpan>, i: nat, k: nat) returns (j: nat)
    requires k < |ordered| && i <= RunIndex(ordered, k)
    ensures j <= k && RunIndex(ordered, j) == i
    decreases k
  {
    if RunIndex(ordered, k) == i { j := k; } else { j := Reached(ordered, i, k - 1); }
  }

  lemma SameStart(run: TenureSpan, s: TenureSpan)
    requires StartsAs(run, s)
    ensures ByStart(run) == ByStart(s)
  {
  }

  lemma HeadBefore(ordered: seq<TenureSpan>, runs: seq<TenureSpan>, m: string, k: nat)
    requires OneMember(ordered, m) && CutAtPartyChanges(ordered, runs) && k < |ordered|
    ensures RunIndex(ordered, k) < |runs| && KeyLe(ByStart(runs[RunIndex(ordered, k)]), ByStart(ordered[k]))
  {
    hide ByStart, KeyLe, StartsAs;
    var h := HeadOf(ordered, k);
    assert Follows(ordered, runs, h);
    SameStart(runs[RunIndex(ordered, k)], ordered[h]);
    KeyLeTotal(ByStart(ordered[k]), ByStart(ordered[k]));
  }

  lemma HeadAfter(ordered: seq<TenureSpan>, runs: seq<TenureSpan>, m: string, k: nat, j: nat)
    requires OneMember(ordered, m) && CutAtPartyChanges(ordered, runs) && NoCrossTies(ordered) && KeyedApart(ordered, ByStart)
    requires k < |ordered| && RunIndex(ordered, k) < j < |runs|
    ensures !KeyLe(ByStart(runs[j]), ByStart(ordered[k]))
  {
    hide ByStart, KeyLe, StartsAs;
    var l := Reached(ordered, j, |ordered| - 1);
    var h := HeadOf(ordered, l);
    assert Follows(ordered, runs, h);
    SameStart(runs[j], ordered[h]);
    if h <= k { IndexGrows(ordered, h, k); }
    StartsLater(ordered, k, h);
  }

  /** A cut in date order is a later start, if no two parties start alike. */
  lemma StartsLater(ordered: seq<TenureSpan>, k: nat, h: nat)
    requires SortedBy(ordered, ByStart) && NoCrossTies(ordered) && k < h < |ordered| && StartsRun(ordered, h)
    ensures !KeyLe(ByStart(ordered[h]), ByStart(ordered[k]))
  {
    hide ByStart, KeyLe;
    var b, c, a := ByStart(ordered[h - 1]), ByStart(ordered[h]), ByStart(ordered[k]);
    KeyLeTotal(a, b);
    if KeyLe(c, a) {
      if k < h - 1 { assert KeyLe(a, b); } else { assert a == b; KeyLeTotal(a, a); }
      KeyLeTransitive(c, a, b);
      KeyLeTotal(b, c);
      assert false;
    }
  }
}
