/** Rejoining each member's same-party spans, whatever the gap between them. */
module PartyContinuity {
  import opened Ordering
  import opened Terms
  import opened Tenure
  import opened TenureBuilder

  /** Sound, and carrying no windows: what every stage before the clip deals in. */
  ghost predicate PlainSpan(s: TenureSpan) { s.Sound() && s.Windowless() }

  ghost predicate Plain(spans: seq<TenureSpan>) {
    forall i :: 0 <= i < |spans| ==> PlainSpan(spans[i])
  }

  /** `_extend`: the run widened to the union of the two; its end, whole, is whichever
      closed side ends last, and an open side leaves it open. */
  function Extend(run: TenureSpan, later: TenureSpan): (r: TenureSpan)
    requires PlainSpan(run) && PlainSpan(later)
    ensures PlainSpan(r)
    ensures r.SourceKey() == run.SourceKey() && r.validFrom == run.validFrom && r.startBasis == run.startBasis
    ensures r.EndOrOpen() == if run.EndOrOpen() < later.EndOrOpen() then later.EndOrOpen() else run.EndOrOpen()
    ensures EndOf(r) == EndOf(run) || EndOf(r) == EndOf(later) || r.endBasis == Open
    ensures r.endBasis == Open <==> run.endBasis == Open || later.endBasis == Open
    ensures r.endBasis != Open ==> EndsByThen(run, r) && EndsByThen(later, r)
    ensures run.validTo == later.validTo && run.endBiennium == later.endBiennium ==> EndOf(r) == EndOf(run)
    ensures r.endBasis == Open ==> r.endBiennium == if run.endBiennium < later.endBiennium then later.endBiennium else run.endBiennium
  {
    var latest := if run.endBiennium < later.endBiennium then later.endBiennium else run.endBiennium;
    if run.isActive || later.isActive then
      run.(endBiennium := latest, validTo := None, isActive := true, endBasis := Open)
    else
      var last := if EndsBefore(run, later) then later else run;
      run.(endBiennium := last.endBiennium, validTo := last.validTo, isActive := false, endBasis := last.endBasis)
  }

  /** A tenure's end, whole: its date, its basis and the biennium it was last attested in. */
  function EndOf(s: TenureSpan): (Option<Date>, Basis, Biennium) { (s.validTo, s.endBasis, s.endBiennium) }

  /** `s` ends no later than `r`, or on its day and last attested no later. */
  predicate EndsByThen(s: TenureSpan, r: TenureSpan) {
    s.EndOrOpen() < r.EndOrOpen() || (s.EndOrOpen() == r.EndOrOpen() && s.endBiennium <= r.endBiennium)
  }

  predicate EndsBefore(run: TenureSpan, later: TenureSpan)
    requires run.validTo.Some? && later.validTo.Some?
  {
    run.validTo.value < later.validTo.value
    || (run.validTo.value == later.validTo.value && run.endBiennium < later.endBiennium)
  }

  predicate NotParty(s: TenureSpan) { s.kind != KIND_PARTY }

  function PartyOf(m: string): TenureSpan -> bool {
    (s: TenureSpan) => s.kind == KIND_PARTY && s.memberId == m
  }

  function ByStart(s: TenureSpan): SortKey { [Num(s.validFrom), Num(s.startBiennium)] }

  /** The runs of a date-ordered list: a different party closes one and opens the next. */
  function Runs(run: TenureSpan, rest: seq<TenureSpan>): (r: seq<TenureSpan>)
    requires PlainSpan(run) && Plain(rest)
    ensures Plain(r)
    decreases |rest|
  {
    if rest == [] then [run]
    else if rest[0].discriminator == run.discriminator then Runs(Extend(run, rest[0]), rest[1..])
    else [run] + Runs(rest[0], rest[1..])
  }

  lemma {:induction false} PlainFilter(spans: seq<TenureSpan>, p: TenureSpan -> bool)
    requires Plain(spans)
    ensures Plain(Filter(spans, p))
  {
    hide PlainSpan;
    if spans != [] { PlainFilter(spans[1..], p); }
  }

  lemma PlainSort(spans: seq<TenureSpan>, key: TenureSpan -> SortKey)
    requires Plain(spans)
    ensures Plain(SortBy(spans, key))
  {
    hide PlainSpan;
    SortBySorts(spans, key);
    var r := SortBy(spans, key);
    forall i | 0 <= i < |r| ensures PlainSpan(r[i]) { assert r[i] in r && r[i] in spans; }
  }

  function DateOrdered(spans: seq<TenureSpan>, m: string): (r: seq<TenureSpan>)
    requires Plain(spans)
    ensures Plain(r)
  {
    PlainFilter(spans, PartyOf(m));
    PlainSort(Filter(spans, PartyOf(m)), ByStart);
    SortBy(Filter(spans, PartyOf(m)), ByStart)
  }

  function MemberRuns(spans: seq<TenureSpan>, m: string): (r: seq<TenureSpan>)
    requires Plain(spans)
    ensures Plain(r)
  {
    var ordered := DateOrdered(spans, m);
    if ordered == [] then [] else Runs(ordered[0], ordered[1..])
  }

  /** Members with a party span, in the order they are first seen. */
  function FirstSeen(spans: seq<TenureSpan>): seq<string> {
    if spans == [] then [] else
      var n := |spans| - 1;
      var before := FirstSeen(spans[..n]);
      if spans[n].kind == KIND_PARTY && spans[n].memberId !in before then before + [spans[n].memberId] else before
  }

  function AllRuns(spans: seq<TenureSpan>, members: seq<string>): (r: seq<TenureSpan>)
    requires Plain(spans)
    ensures Plain(r)
  {
    if members == [] then [] else MemberRuns(spans, members[0]) + AllRuns(spans, members[1..])
  }

  function Unsorted(spans: seq<TenureSpan>): (r: seq<TenureSpan>)
    requires Plain(spans)
    ensures Plain(r)
  {
    PlainFilter(spans, NotParty);
    Filter(spans, NotParty) + AllRuns(spans, FirstSeen(spans))
  }

  /** The merge as a function: what is not a party span passes through, each member's
      party spans become runs, and all of it comes out in id order. */
  function Merged(spans: seq<TenureSpan>): (r: seq<TenureSpan>)
    requires Plain(spans)
    ensures Plain(r)
  {
    PlainSort(Unsorted(spans), SourceOrder);
    SortBy(Unsorted(spans), SourceOrder)
  }

  // ----- The merge, in loops

  function GetSpans(m: map<string, seq<TenureSpan>>, k: string): seq<TenureSpan> {
    if k in m then m[k] else []
  }

  lemma {:induction false} FilterLast(spans: seq<TenureSpan>, k: nat, p: TenureSpan -> bool)
    requires k < |spans|
    ensures Filter(spans[..k + 1], p) == Filter(spans[..k], p) + (if p(spans[k]) then [spans[k]] else [])
  {
    FilterAppend(spans[..k], [spans[k]], p);
    assert spans[..k + 1] == spans[..k] + [spans[k]];
    assert [spans[k]][1..] == [];
  }

  method RunsOf(ordered: seq<TenureSpan>) returns (merged: seq<TenureSpan>)
    requires Plain(ordered)
    ensures merged == if ordered == [] then [] else Runs(ordered[0], ordered[1..])
  {
    merged := [];
    var run: Option<TenureSpan> := None;
    for k := 0 to |ordered|
      invariant run.None? <==> k == 0
      invariant run.None? ==> merged == []
      invariant run.Some? ==> PlainSpan(run.value) && Runs(ordered[0], ordered[1..]) == merged + Runs(run.value, ordered[k..])
    {
      hide PlainSpan;
      var span := ordered[k];
      assert ordered[k..][1..] == ordered[k + 1..];
      assert PlainSpan(span);
      if run.None? {
        run := Some(span);
      } else if span.discriminator == run.value.discriminator {
        run := Some(Extend(run.value, span));
      } else {
        merged := merged + [run.value];
        run := Some(span);
      }
    }
    if run.Some? { merged := merged + [run.value]; }
  }

  /** The first `k` spans, sorted out. */
  ghost predicate Grouped(spans: seq<TenureSpan>, k: nat, byMember: map<string, seq<TenureSpan>>, members: seq<string>, passthrough: seq<TenureSpan>)
    requires k <= |spans|
  {
    && passthrough == Filter(spans[..k], NotParty)
    && members == FirstSeen(spans[..k])
    && (forall m :: GetSpans(byMember, m) == Filter(spans[..k], PartyOf(m)))
    && (forall m :: m in members <==> m in byMember)
  }

  lemma GroupParty(spans: seq<TenureSpan>, k: nat, byMember: map<string, seq<TenureSpan>>, members: seq<string>, passthrough: seq<TenureSpan>)
    requires k < |spans| && Grouped(spans, k, byMember, members, passthrough) && spans[k].kind == KIND_PARTY
    ensures var m := spans[k].memberId;
            Grouped(spans, k + 1, byMember[m := GetSpans(byMember, m) + [spans[k]]], if m in byMember then members else members + [m], passthrough)
  {
    hide Filter, FirstSeen, GetSpans;
    PassedThrough(spans, k);
    FirstSeenLast(spans, k);
    forall m ensures GetSpans(byMember[spans[k].memberId := GetSpans(byMember, spans[k].memberId) + [spans[k]]], m)
                  == Filter(spans[..k + 1], PartyOf(m))
    {
      GroupedFor(spans, k, m, byMember);
    }
  }

  lemma PassedThrough(spans: seq<TenureSpan>, k: nat)
    requires k < |spans| && spans[k].kind == KIND_PARTY
    ensures Filter(spans[..k + 1], NotParty) == Filter(spans[..k], NotParty)
  {
    FilterLast(spans, k, NotParty);
    hide Filter;
    assert Filter(spans[..k], NotParty) + [] == Filter(spans[..k], NotParty);
  }

  lemma GroupedFor(spans: seq<TenureSpan>, k: nat, m: string, byMember: map<string, seq<TenureSpan>>)
    requires k < |spans| && spans[k].kind == KIND_PARTY && GetSpans(byMember, m) == Filter(spans[..k], PartyOf(m))
    ensures GetSpans(byMember[spans[k].memberId := GetSpans(byMember, spans[k].memberId) + [spans[k]]], m)
         == Filter(spans[..k + 1], PartyOf(m))
  {
    FilterLast(spans, k, PartyOf(m));
    hide Filter;
    assert GetSpans(byMember, m) + [] == GetSpans(byMember, m);
  }

  lemma GroupOther(spans: seq<TenureSpan>, k: nat, byMember: map<string, seq<TenureSpan>>, members: seq<string>, passthrough: seq<TenureSpan>)
    requires k < |spans| && Grouped(spans, k, byMember, members, passthrough) && spans[k].kind != KIND_PARTY
    ensures Grouped(spans, k + 1, byMember, members, passthrough + [spans[k]])
  {
    FilterLast(spans, k, NotParty);
    forall m ensures Filter(spans[..k + 1], PartyOf(m)) == Filter(spans[..k], PartyOf(m)) { FilterLast(spans, k, PartyOf(m)); }
    FirstSeenLast(spans, k);
    hide Filter, FirstSeen;
  }

  lemma FirstSeenLast(spans: seq<TenureSpan>, k: nat)
    requires k < |spans|
    ensures var before := FirstSeen(spans[..k]);
            FirstSeen(spans[..k + 1]) == if spans[k].kind == KIND_PARTY && spans[k].memberId !in before then before + [spans[k].memberId] else before
  {
    assert spans[..k + 1][..k] == spans[..k];
  }

  /** Sort the spans out: party spans by member, the rest to pass through. */
  method GroupByMember(spans: seq<TenureSpan>)
    returns (byMember: map<string, seq<TenureSpan>>, members: seq<string>, passthrough: seq<TenureSpan>)
    ensures passthrough == Filter(spans, NotParty)
    ensures members == FirstSeen(spans)
    ensures forall m :: GetSpans(byMember, m) == Filter(spans, PartyOf(m))
  {
    byMember, members, passthrough := map[], [], [];
    assert Grouped(spans, 0, byMember, members, passthrough);
    for k := 0 to |spans|
      invariant Grouped(spans, k, byMember, members, passthrough)
    {
      hide Grouped, Filter, FirstSeen;
      var span := spans[k];
      if span.kind == KIND_PARTY {
        GroupParty(spans, k, byMember, members, passthrough);
        if span.memberId !in byMember { members := members + [span.memberId]; }
        byMember := byMember[span.memberId := GetSpans(byMember, span.memberId) + [span]];
      } else {
        GroupOther(spans, k, byMember, members, passthrough);
        passthrough := passthrough + [span];
      }
    }
    assert spans[..|spans|] == spans;
  }

  method MergePartyContinuity(spans: seq<TenureSpan>) returns (r: seq<TenureSpan>)
    requires Plain(spans)
    ensures r == Merged(spans)
  {
    hide PlainSpan, SortBy, Filter, FirstSeen, MemberRuns, Unsorted, Merged, AllRuns, Runs;
    var byMember, members, passthrough := GroupByMember(spans);
    var merged: seq<TenureSpan> := [];
    assert members[0..] == members;
    for k := 0 to |members|
      invariant merged + AllRuns(spans, members[k..]) == AllRuns(spans, members)
    {
      var m := members[k];
      MemberRunsAre(spans, m);
      OneMoreMember(spans, members, k, merged);
      var runs := RunsOf(SortBy(GetSpans(byMember, m), ByStart));
      merged := merged + runs;
    }
    MergedIs(spans, members, merged);
    r := SortBy(passthrough + merged, SourceOrder);
  }

  lemma OneMoreMember(spans: seq<TenureSpan>, members: seq<string>, k: nat, merged: seq<TenureSpan>)
    requires Plain(spans) && k < |members|
    ensures merged + MemberRuns(spans, members[k]) + AllRuns(spans, members[k + 1..]) == merged + AllRuns(spans, members[k..])
  {
    hide PlainSpan, MemberRuns, AllRuns;
    assert members[k..][1..] == members[k + 1..];
    AllRunsUnfold(spans, members[k..]);
    Associates(merged, MemberRuns(spans, members[k]), AllRuns(spans, members[k + 1..]));
  }

  lemma AllRunsUnfold(spans: seq<TenureSpan>, members: seq<string>)
    requires Plain(spans) && members != []
    ensures AllRuns(spans, members) == MemberRuns(spans, members[0]) + AllRuns(spans, members[1..])
  {
    hide PlainSpan, MemberRuns;
  }

  lemma Associates(a: seq<TenureSpan>, b: seq<TenureSpan>, c: seq<TenureSpan>)
    ensures a + b + c == a + (b + c)
  {
  }

  lemma MemberRunsAre(spans: seq<TenureSpan>, m: string)
    requires Plain(spans)
    ensures var ordered := SortBy(Filter(spans, PartyOf(m)), ByStart);
            Plain(ordered) && MemberRuns(spans, m) == if ordered == [] then [] else Runs(ordered[0], ordered[1..])
  {
    hide SortBy, Filter, PlainSpan, Runs;
    PlainFilter(spans, PartyOf(m));
    PlainSort(Filter(spans, PartyOf(m)), ByStart);
  }

  lemma MergedIs(spans: seq<TenureSpan>, members: seq<string>, merged: seq<TenureSpan>)
    requires Plain(spans) && members == FirstSeen(spans)
    requires merged + AllRuns(spans, members[|members|..]) == AllRuns(spans, members)
    ensures Merged(spans) == SortBy(Filter(spans, NotParty) + merged, SourceOrder)
  {
    hide SortBy, Filter, FirstSeen, PlainSpan;
    assert AllRuns(spans, members[|members|..]) == [] && merged + [] == merged;
  }
}
