/** The party merge as a whole: coverage, alternation, what passes through, and what
    the result depends on. */
module PartyMergeLaws {
  import opened Ordering
  import opened Terms
  import opened Tenure
  import opened TenureBuilder
  import opened PartyContinuity
  import opened PartyContinuityLaws

  // ----- What is in the merge

  lemma {:induction false} SeenMembers(spans: seq<TenureSpan>)
    ensures Distinct(FirstSeen(spans))
    ensures forall m :: m in FirstSeen(spans) <==> exists i :: 0 <= i < |spans| && PartyOf(m)(spans[i])
  {
    if spans != [] {
      var n := |spans| - 1;
      SeenMembers(spans[..n]);
      forall m ensures m in FirstSeen(spans) <==> exists i :: 0 <= i < |spans| && PartyOf(m)(spans[i]) {
        if m in FirstSeen(spans) {
          if m in FirstSeen(spans[..n]) {
            var i :| 0 <= i < n && PartyOf(m)(spans[..n][i]);
            assert PartyOf(m)(spans[i]);
          } else {
            assert PartyOf(m)(spans[n]);
          }
        }
        if i :| 0 <= i < |spans| && PartyOf(m)(spans[i]) {
          if i < n { assert PartyOf(m)(spans[..n][i]); }
        }
      }
    }
  }

  lemma DateOrderedIs(spans: seq<TenureSpan>, m: string)
    requires Plain(spans)
    ensures OneMember(DateOrdered(spans, m), m)
    ensures forall s :: s in DateOrdered(spans, m) <==> s in spans && PartyOf(m)(s)
    ensures multiset(DateOrdered(spans, m)) == multiset(Filter(spans, PartyOf(m)))
  {
    SortBySorts(Filter(spans, PartyOf(m)), ByStart);
    hide PlainSpan;
    var ordered := DateOrdered(spans, m);
    forall s ensures s in ordered <==> s in spans && PartyOf(m)(s) { FilterMember(spans, PartyOf(m), s); }
    hide SortBy, Filter, SortedBy;
    forall i | 0 <= i < |ordered| ensures ordered[i].memberId == m && ordered[i].kind == KIND_PARTY { assert ordered[i] in ordered; }
  }

  lemma MemberRunsAlternate(spans: seq<TenureSpan>, m: string)
    requires Plain(spans)
    ensures Alternates(MemberRuns(spans, m)) && OneMember(MemberRuns(spans, m), m)
  {
    hide PlainSpan, Runs, DateOrdered, OneMember;
    DateOrderedIs(spans, m);
    var ordered := DateOrdered(spans, m);
    if ordered == [] {
      assert OneMember([], m) by { NobodyInOrder(m); }
    } else {
      assert [ordered[0]] + ordered[1..] == ordered;
      RunsAlternate(ordered[0], ordered[1..], m);
    }
  }

  lemma NobodyInOrder(m: string)
    ensures OneMember([], m)
  {
  }

  lemma {:induction false} AllRunsMembers(spans: seq<TenureSpan>, members: seq<string>, s: TenureSpan)
    requires Plain(spans)
    ensures s in AllRuns(spans, members) <==> s.memberId in members && s in MemberRuns(spans, s.memberId)
    decreases |members|
  {
    hide PlainSpan, MemberRuns;
    if members != [] {
      AllRunsMembers(spans, members[1..], s);
      MemberRunsAlternate(spans, members[0]);
      assert members == [members[0]] + members[1..];
      if s in MemberRuns(spans, members[0]) {
        var i :| 0 <= i < |MemberRuns(spans, members[0])| && MemberRuns(spans, members[0])[i] == s;
      }
    }
  }

  lemma RunsOnlyOfSeen(spans: seq<TenureSpan>, m: string)
    requires Plain(spans)
    ensures MemberRuns(spans, m) != [] ==> m in FirstSeen(spans)
  {
    SeenMembers(spans);
    DateOrderedIs(spans, m);
    hide PlainSpan, Runs, FirstSeen, DateOrdered;
    var ordered := DateOrdered(spans, m);
    if ordered != [] {
      assert ordered[0] in ordered && ordered[0] in spans;
      var i :| 0 <= i < |spans| && spans[i] == ordered[0];
      assert PartyOf(m)(spans[i]);
    }
  }

  /** A span of the merge is a non-party span of the input or one of its member's runs. */
  lemma InMerged(spans: seq<TenureSpan>, s: TenureSpan)
    requires Plain(spans)
    ensures s in Merged(spans) <==> (s in spans && NotParty(s)) || s in MemberRuns(spans, s.memberId)
  {
    hide PlainSpan, AllRuns, MemberRuns, FirstSeen;
    SortBySorts(Unsorted(spans), SourceOrder);
    FilterMember(spans, NotParty, s);
    AllRunsMembers(spans, FirstSeen(spans), s);
    RunsOnlyOfSeen(spans, s.memberId);
    hide SortBy, Filter;
  }

  /** Coverage: every party span of the input lies inside one span of the output, of the
      same member and party. */
  lemma EveryPartySpanIsJoined(spans: seq<TenureSpan>, s: TenureSpan)
    requires Plain(spans) && s in spans && s.kind == KIND_PARTY
    ensures exists o :: o in Merged(spans) && Joins(o, s)
  {
    hide PlainSpan, Runs, DateOrdered, Merged;
    var ordered, runs := DateOrdered(spans, s.memberId), MemberRuns(spans, s.memberId);
    DateOrderedIs(spans, s.memberId);
    assert s in ordered;
    assert [ordered[0]] + ordered[1..] == ordered;
    RunsJoin(ordered[0], ordered[1..], s.memberId, s);
    var k :| 0 <= k < |runs| && Joins(runs[k], s);
    InMerged(spans, runs[k]);
  }

  /** Nothing made up: a merged party span starts where one input starts, under that
      input's id, and ends where one ends. */
  lemma MergedSpansAreMadeFromInputs(spans: seq<TenureSpan>, o: TenureSpan)
    requires Plain(spans) && o in Merged(spans)
    ensures MadeFrom(spans, o)
  {
    hide PlainSpan, Runs, DateOrdered, Merged, MadeFrom;
    InMerged(spans, o);
    if o in spans {
      MadeFromItself(spans, o);
    } else {
      var ordered := DateOrdered(spans, o.memberId);
      DateOrderedIs(spans, o.memberId);
      assert ordered[0] in ordered && forall s :: s in ordered[1..] ==> s in ordered;
      MadeFromItself(spans, ordered[0]);
      RunsMadeFrom(spans, ordered[0], ordered[1..]);
    }
  }

  lemma MadeFromItself(spans: seq<TenureSpan>, o: TenureSpan)
    requires o in spans
    ensures MadeFrom(spans, o)
  {
  }

  // ----- Distinct ids

  lemma {:induction false} FilterSources(spans: seq<TenureSpan>, p: TenureSpan -> bool)
    requires DistinctSources(spans)
    ensures DistinctSources(Filter(spans, p))
  {
    if spans != [] {
      FilterSources(spans[1..], p);
      var rest := Filter(spans[1..], p);
      forall j | 0 <= j < |rest| ensures rest[j].SourceKey() != spans[0].SourceKey() {
        FilterMember(spans[1..], p, rest[j]);
        var k :| 0 <= k < |spans[1..]| && spans[1..][k] == rest[j];
        assert spans[k + 1] == rest[j];
      }
    }
  }

  ghost predicate KeyAmong(spans: seq<TenureSpan>, key: (string, string, string, Biennium)) {
    exists j :: 0 <= j < |spans| && spans[j].SourceKey() == key
  }

  /** A merged run keeps an id of the list, and no two runs the same one. */
  lemma {:induction false} RunsSources(run: TenureSpan, rest: seq<TenureSpan>)
    requires PlainSpan(run) && Plain(rest) && DistinctSources(rest) && !KeyAmong(rest, run.SourceKey())
    ensures DistinctSources(Runs(run, rest))
    ensures forall k :: 0 <= k < |Runs(run, rest)| ==> KeyAmong([run] + rest, Runs(run, rest)[k].SourceKey())
    decreases |rest|
  {
    hide PlainSpan;
    if rest == [] {
      assert ([run] + rest)[0] == run;
    } else {
      var next := rest[0];
      NextSources(rest);
      KeysOnward(run, rest);
      hide KeyAmong, DistinctSources;
      if next.discriminator == run.discriminator {
        RunsSources(Extend(run, next), rest[1..]);
      } else {
        RunsSources(next, rest[1..]);
        var tail := Runs(next, rest[1..]);
        assert [next] + rest[1..] == rest;
        SourcesPrepend(run, rest, tail);
      }
    }
  }

  lemma NextSources(rest: seq<TenureSpan>)
    requires rest != [] && DistinctSources(rest)
    ensures DistinctSources(rest[1..]) && !KeyAmong(rest[1..], rest[0].SourceKey())
  {
  }

  lemma KeysWiden(run: TenureSpan, rest: seq<TenureSpan>, key: (string, string, string, Biennium))
    requires PlainSpan(run) && Plain(rest) && rest != []
    requires KeyAmong([Extend(run, rest[0])] + rest[1..], key)
    ensures KeyAmong([run] + rest, key)
  {
    hide PlainSpan, KeyAmong;
    KeysOfHead(run, Extend(run, rest[0]), rest, key);
  }

  lemma KeysOfHead(run: TenureSpan, head: TenureSpan, rest: seq<TenureSpan>, key: (string, string, string, Biennium))
    requires rest != [] && head.SourceKey() == run.SourceKey() && KeyAmong([head] + rest[1..], key)
    ensures KeyAmong([run] + rest, key)
  {
    hide KeyAmong, TenureSpan.SourceKey;
    KeyIsHeadOrTail(head, rest[1..], key);
    if key == run.SourceKey() {
      KeyStaysAmong(run, rest, key);
    } else {
      KeyStaysAmong(rest[0], rest[1..], key);
      assert [rest[0]] + rest[1..] == rest;
      KeyStaysAmong(run, rest, key);
    }
  }

  lemma KeyIsHeadOrTail(head: TenureSpan, tail: seq<TenureSpan>, key: (string, string, string, Biennium))
    requires KeyAmong([head] + tail, key)
    ensures key == head.SourceKey() || KeyAmong(tail, key)
  {
    hide TenureSpan.SourceKey;
    var all := [head] + tail;
    var j :| 0 <= j < |all| && all[j].SourceKey() == key;
    if j > 0 { assert tail[j - 1] == all[j]; }
  }

  lemma KeysOnward(run: TenureSpan, rest: seq<TenureSpan>)
    requires PlainSpan(run) && Plain(rest) && rest != []
    ensures forall key :: KeyAmong([Extend(run, rest[0])] + rest[1..], key) ==> KeyAmong([run] + rest, key)
    ensures forall key :: KeyAmong(rest, key) ==> KeyAmong([run] + rest, key)
    ensures !KeyAmong(rest, run.SourceKey()) ==> !KeyAmong(rest[1..], Extend(run, rest[0]).SourceKey())
  {
    hide KeyAmong, PlainSpan, TenureSpan.SourceKey;
    forall key | KeyAmong([Extend(run, rest[0])] + rest[1..], key) ensures KeyAmong([run] + rest, key) { KeysWiden(run, rest, key); }
    forall key | KeyAmong(rest, key) ensures KeyAmong([run] + rest, key) { KeyStaysAmong(run, rest, key); }
    assert Extend(run, rest[0]).SourceKey() == run.SourceKey();
    hide Extend;
    if KeyAmong(rest[1..], run.SourceKey()) {
      KeyStaysAmong(rest[0], rest[1..], run.SourceKey());
      assert [rest[0]] + rest[1..] == rest;
    }
  }

  lemma KeyStaysAmong(run: TenureSpan, rest: seq<TenureSpan>, key: (string, string, string, Biennium))
    requires KeyAmong(rest, key) || key == run.SourceKey()
    ensures KeyAmong([run] + rest, key)
  {
    hide TenureSpan.SourceKey;
    var all := [run] + rest;
    if key == run.SourceKey() {
      assert all[0].SourceKey() == key;
    } else {
      var j :| 0 <= j < |rest| && rest[j].SourceKey() == key;
      assert all[j + 1].SourceKey() == key;
    }
  }

  lemma SourcesPrepend(run: TenureSpan, rest: seq<TenureSpan>, tail: seq<TenureSpan>)
    requires DistinctSources(tail) && !KeyAmong(rest, run.SourceKey())
    requires forall k :: 0 <= k < |tail| ==> KeyAmong(rest, tail[k].SourceKey())
    ensures DistinctSources([run] + tail)
    ensures forall k :: 0 <= k < |[run] + tail| ==> KeyAmong([run] + rest, ([run] + tail)[k].SourceKey())
  {
    hide KeyAmong, TenureSpan.SourceKey;
    var longer := [run] + tail;
    forall k | 0 <= k < |longer| ensures KeyAmong([run] + rest, longer[k].SourceKey()) {
      KeyStaysAmong(run, rest, longer[k].SourceKey());
    }
    forall i, j | 0 <= i < j < |longer| ensures longer[i].SourceKey() != longer[j].SourceKey() {
      assert longer[j] == tail[j - 1];
      if i > 0 { assert longer[i] == tail[i - 1]; }
    }
  }

  lemma MemberRunsSources(spans: seq<TenureSpan>, m: string)
    requires Plain(spans) && DistinctSources(spans)
    ensures DistinctSources(MemberRuns(spans, m))
  {
    FilterSources(spans, PartyOf(m));
    SortBySorts(Filter(spans, PartyOf(m)), ByStart);
    SourcesStayDistinct(Filter(spans, PartyOf(m)), SortBy(Filter(spans, PartyOf(m)), ByStart));
    hide PlainSpan, Runs, SortBy, Filter;
    var ordered := DateOrdered(spans, m);
    if ordered != [] {
      NextSources(ordered);
      RunsSources(ordered[0], ordered[1..]);
    }
  }

  lemma SourcesAppend(s: seq<TenureSpan>, t: seq<TenureSpan>)
    requires DistinctSources(s) && DistinctSources(t)
    requires forall i, j :: 0 <= i < |s| && 0 <= j < |t| ==> s[i].SourceKey() != t[j].SourceKey()
    ensures DistinctSources(s + t)
  {
  }

  lemma {:induction false} AllRunsSources(spans: seq<TenureSpan>, members: seq<string>)
    requires Plain(spans) && DistinctSources(spans) && Distinct(members)
    ensures DistinctSources(AllRuns(spans, members))
    ensures forall k :: 0 <= k < |AllRuns(spans, members)| ==> AllRuns(spans, members)[k].kind == KIND_PARTY && AllRuns(spans, members)[k].memberId in members
    decreases |members|
  {
    hide PlainSpan, MemberRuns;
    if members != [] {
      var first, rest := MemberRuns(spans, members[0]), AllRuns(spans, members[1..]);
      AllRunsSources(spans, members[1..]);
      MemberRunsSources(spans, members[0]);
      MemberRunsAlternate(spans, members[0]);
      assert members[0] !in members[1..];
      SourcesAppend(first, rest);
    }
  }

  /** The merge keeps ids distinct. */
  lemma MergedSourcesAreDistinct(spans: seq<TenureSpan>)
    requires Plain(spans) && DistinctSources(spans)
    ensures DistinctSources(Merged(spans)) && SortedBy(Merged(spans), SourceOrder)
  {
    SeenMembers(spans);
    AllRunsSources(spans, FirstSeen(spans));
    FilterSources(spans, NotParty);
    var pass, runs := Filter(spans, NotParty), AllRuns(spans, FirstSeen(spans));
    forall i, j | 0 <= i < |pass| && 0 <= j < |runs| ensures pass[i].SourceKey() != runs[j].SourceKey() {
      FilterMember(spans, NotParty, pass[i]);
    }
    SourcesAppend(pass, runs);
    SortBySorts(Unsorted(spans), SourceOrder);
    SourcesStayDistinct(Unsorted(spans), Merged(spans));
  }

  // ----- What the merge depends on

  /** No member is attested under two parties from one start. */
  ghost predicate NoPartyTies(spans: seq<TenureSpan>) {
    forall s, t :: s in spans && t in spans && OtherParty(s, t) ==> ByStart(s) != ByStart(t)
  }

  predicate OtherParty(s: TenureSpan, t: TenureSpan) {
    s.kind == t.kind == KIND_PARTY && s.memberId == t.memberId && s.discriminator != t.discriminator
  }

  lemma {:induction false} FilterMultiset(s: seq<TenureSpan>, p: TenureSpan -> bool, x: TenureSpan)
    ensures multiset(Filter(s, p))[x] == if p(x) then multiset(s)[x] else 0
  {
    if s != [] {
      FilterMultiset(s[1..], p, x);
      assert s == [s[0]] + s[1..];
      assert multiset(s)[x] == (if x == s[0] then 1 else 0) + multiset(s[1..])[x];
      if p(s[0]) { assert Filter(s, p) == [s[0]] + Filter(s[1..], p); }
    }
  }

  lemma SameStartSameSpan(spans: seq<TenureSpan>, m: string, s: TenureSpan, t: TenureSpan)
    requires DistinctSources(spans) && NoPartyTies(spans) && s in spans && t in spans
    requires PartyOf(m)(s) && PartyOf(m)(t) && ByStart(s) == ByStart(t)
    ensures s == t
  {
    ByStartMeans(s, t);
    hide ByStart;
    assert !OtherParty(s, t);
    var k :| 0 <= k < |spans| && spans[k] == s;
    var l :| 0 <= l < |spans| && spans[l] == t;
    assert spans[k].SourceKey() == spans[l].SourceKey();
  }

  lemma DateOrderedApart(spans: seq<TenureSpan>, m: string)
    requires Plain(spans) && DistinctSources(spans) && NoPartyTies(spans)
    ensures KeyedApart(DateOrdered(spans, m), ByStart) && NoCrossTies(DateOrdered(spans, m))
  {
    DateOrderedIs(spans, m);
    hide PlainSpan, SortBy, Filter, DateOrdered, ByStart, DistinctSources, NoPartyTies;
    var ordered := DateOrdered(spans, m);
    forall i, j | 0 <= i < |ordered| && 0 <= j < |ordered| && ByStart(ordered[i]) == ByStart(ordered[j])
      ensures ordered[i] == ordered[j]
    {
      assert ordered[i] in ordered && ordered[j] in ordered;
      SameStartSameSpan(spans, m, ordered[i], ordered[j]);
    }
  }

  lemma SameMemberRuns(x: seq<TenureSpan>, y: seq<TenureSpan>, m: string)
    requires Plain(x) && Plain(y) && multiset(x) == multiset(y) && DistinctSources(x) && NoPartyTies(x)
    ensures MemberRuns(x, m) == MemberRuns(y, m)
  {
    DateOrderedIs(x, m);
    DateOrderedIs(y, m);
    DateOrderedApart(x, m);
    forall s ensures multiset(Filter(x, PartyOf(m)))[s] == multiset(Filter(y, PartyOf(m)))[s] {
      FilterMultiset(x, PartyOf(m), s);
      FilterMultiset(y, PartyOf(m), s);
    }
    hide PlainSpan, Runs, DateOrdered, Filter;
    SortedUnique(DateOrdered(x, m), DateOrdered(y, m), ByStart);
  }

  /** Two merges with the same elements, under distinct ids, are the same list. */
  lemma SameMerge(x: seq<TenureSpan>, y: seq<TenureSpan>)
    requires Plain(x) && Plain(y) && DistinctSources(Merged(x)) && DistinctSources(Merged(y))
    requires forall s :: s in Merged(x) <==> s in Merged(y)
    ensures Merged(x) == Merged(y)
  {
    SortBySorts(Unsorted(x), SourceOrder);
    SortBySorts(Unsorted(y), SourceOrder);
    hide PlainSpan, Unsorted, SortBy;
    SourcesKeyApart(Merged(x));
    SourcesKeyApart(Merged(y));
    DistinctSameElements(Merged(x), Merged(y));
    SortedUnique(Merged(x), Merged(y), SourceOrder);
  }

  /** The merge does not depend on the order of its input, ids being distinct and no
      member tied between two parties. */
  lemma MergeOrderDoesNotMatter(x: seq<TenureSpan>, y: seq<TenureSpan>)
    requires Plain(x) && Plain(y) && multiset(x) == multiset(y) && DistinctSources(x) && NoPartyTies(x)
    ensures Merged(x) == Merged(y)
  {
    SameMultisetSameElements(x, y);
    SourcesStayDistinct(x, y);
    MergedSourcesAreDistinct(x);
    MergedSourcesAreDistinct(y);
    hide PlainSpan, MemberRuns, Merged, DistinctSources, NoPartyTies;
    forall s ensures s in Merged(x) <==> s in Merged(y) {
      InMerged(x, s);
      InMerged(y, s);
      SameMemberRuns(x, y, s.memberId);
    }
    SameMerge(x, y);
  }

  /** A member's runs are in the merge, and sorting them by date gives them back in order. */
  lemma MergedMemberRuns(spans: seq<TenureSpan>, m: string)
    requires Plain(spans) && DistinctSources(spans) && NoPartyTies(spans)
    ensures DateOrdered(Merged(spans), m) == MemberRuns(spans, m)
    ensures StartsApart(MemberRuns(spans, m))
  {
    var runs, again := MemberRuns(spans, m), DateOrdered(Merged(spans), m);
    MemberRunsStartApart(spans, m);
    MemberRunsAlternate(spans, m);
    DateOrderedIs(Merged(spans), m);
    MergedSourcesAreDistinct(spans);
    FilterSources(Merged(spans), PartyOf(m));
    hide PlainSpan, DateOrdered, Merged, MemberRuns, Filter;
    SourcesKeyApart(Filter(Merged(spans), PartyOf(m)));
    SameMultisetDistinct(Filter(Merged(spans), PartyOf(m)), again);
    forall s ensures s in again <==> s in runs {
      InMerged(spans, s);
      if s in runs { var k :| 0 <= k < |runs| && runs[k] == s; }
    }
    StartsApartKeys(runs);
    DistinctSameElements(runs, again);
    SortedUnique(runs, again, ByStart);
  }

  lemma MemberRunsStartApart(spans: seq<TenureSpan>, m: string)
    requires Plain(spans) && DistinctSources(spans) && NoPartyTies(spans)
    ensures StartsApart(MemberRuns(spans, m))
  {
    DateOrderedIs(spans, m);
    DateOrderedApart(spans, m);
    hide PlainSpan, DateOrdered, Runs, OneMember, NoCrossTies;
    var ordered := DateOrdered(spans, m);
    if ordered != [] {
      assert [ordered[0]] + ordered[1..] == ordered;
      RunsStartApart(ordered[0], ordered[1..], m);
    }
  }

  lemma StartsApartKeys(runs: seq<TenureSpan>)
    requires StartsApart(runs)
    ensures KeyedApart(runs, ByStart) && Distinct(runs)
  {
    hide ByStart;
    forall i, j | 0 <= i < |runs| && 0 <= j < |runs| && ByStart(runs[i]) == ByStart(runs[j]) ensures runs[i] == runs[j] {
      if i < j { assert false; }
      if j < i { assert false; }
    }
  }

  /** In date order, a member's merged party spans alternate between parties. */
  lemma MergedPartiesAlternate(spans: seq<TenureSpan>, m: string)
    requires Plain(spans) && DistinctSources(spans) && NoPartyTies(spans)
    ensures Alternates(DateOrdered(Merged(spans), m))
  {
    MergedMemberRuns(spans, m);
    MemberRunsAlternate(spans, m);
    hide PlainSpan, DateOrdered, MemberRuns, Merged;
  }

  /** Merging again changes nothing. */
  lemma MergeIsIdempotent(spans: seq<TenureSpan>)
    requires Plain(spans) && DistinctSources(spans) && NoPartyTies(spans)
    ensures Merged(Merged(spans)) == Merged(spans)
  {
    var once := Merged(spans);
    MergedSourcesAreDistinct(spans);
    MergedSourcesAreDistinct(once);
    forall s ensures s in Merged(once) <==> s in once {
      InMerged(once, s);
      InMerged(spans, s);
      MergedMemberRuns(spans, s.memberId);
      MemberRunsAlternate(spans, s.memberId);
      RunsAgain(once, spans, s.memberId);
      hide PlainSpan, DateOrdered, MemberRuns, Merged;
      if s in MemberRuns(spans, s.memberId) {
        var k :| 0 <= k < |MemberRuns(spans, s.memberId)| && MemberRuns(spans, s.memberId)[k] == s;
      }
    }
    SameMerge(once, spans);
  }

  lemma RunsAgain(once: seq<TenureSpan>, spans: seq<TenureSpan>, m: string)
    requires Plain(once) && Plain(spans) && DateOrdered(once, m) == MemberRuns(spans, m)
    ensures MemberRuns(once, m) == MemberRuns(spans, m)
  {
    MemberRunsAlternate(spans, m);
    hide PlainSpan, DateOrdered, Runs;
    var runs := DateOrdered(once, m);
    if runs != [] {
      assert [runs[0]] + runs[1..] == runs;
      AlternatingRunsStay(runs[0], runs[1..]);
    }
  }

  // ----- One member at a time

  function Of(m: string): TenureSpan -> bool {
    (s: TenureSpan) => s.memberId == m
  }

  lemma {:induction false} FilterTwice(s: seq<TenureSpan>, p: TenureSpan -> bool, q: TenureSpan -> bool)
    requires forall x :: q(x) ==> p(x)
    ensures Filter(Filter(s, p), q) == Filter(s, q)
  {
    if s != [] {
      FilterTwice(s[1..], p, q);
      FilterAppend(if p(s[0]) then [s[0]] else [], Filter(s[1..], p), q);
      assert [s[0]][1..] == [];
    }
  }

  lemma {:induction false} FilterSwap(s: seq<TenureSpan>, p: TenureSpan -> bool, q: TenureSpan -> bool)
    ensures Filter(Filter(s, p), q) == Filter(Filter(s, q), p)
  {
    if s != [] {
      FilterSwap(s[1..], p, q);
      FilterAppend(if p(s[0]) then [s[0]] else [], Filter(s[1..], p), q);
      FilterAppend(if q(s[0]) then [s[0]] else [], Filter(s[1..], q), p);
      assert [s[0]][1..] == [];
    }
  }

  lemma {:induction false} FilterAllOrNone(s: seq<TenureSpan>, p: TenureSpan -> bool)
    ensures (forall i :: 0 <= i < |s| ==> p(s[i])) ==> Filter(s, p) == s
    ensures (forall i :: 0 <= i < |s| ==> !p(s[i])) ==> Filter(s, p) == []
  {
    if s != [] { FilterAllOrNone(s[1..], p); }
  }

  lemma {:induction false} AllRunsOf(spans: seq<TenureSpan>, members: seq<string>, m: string)
    requires Plain(spans) && Distinct(members)
    ensures Filter(AllRuns(spans, members), Of(m)) == if m in members then MemberRuns(spans, m) else []
    decreases |members|
  {
    hide PlainSpan, MemberRuns;
    if members != [] {
      var n := members[0];
      AllRunsOf(spans, members[1..], m);
      MemberRunsAlternate(spans, n);
      FilterAppend(MemberRuns(spans, n), AllRuns(spans, members[1..]), Of(m));
      FilterAllOrNone(MemberRuns(spans, n), Of(m));
      assert n !in members[1..] && members == [n] + members[1..];
    }
  }

  /** The merge handles members one by one: what it makes of one member's spans among
      others is what it makes of them alone. */
  lemma MergeIsPerMember(spans: seq<TenureSpan>, m: string)
    requires Plain(spans)
    ensures Plain(Filter(spans, Of(m)))
    ensures Filter(Merged(spans), Of(m)) == Merged(Filter(spans, Of(m)))
  {
    var own := Filter(spans, Of(m));
    PlainFilter(spans, Of(m));
    SortByFilters(Unsorted(spans), SourceOrder, Of(m));
    SeenMembers(spans);
    SeenMembers(own);
    FilterAppend(Filter(spans, NotParty), AllRuns(spans, FirstSeen(spans)), Of(m));
    FilterSwap(spans, NotParty, Of(m));
    AllRunsOf(spans, FirstSeen(spans), m);
    RunsOnlyOfSeen(spans, m);
    OwnRuns(spans, m);
    hide PlainSpan, SortBy, Filter, FirstSeen, MemberRuns, AllRuns;
    assert Filter(Unsorted(spans), Of(m)) == Unsorted(own);
  }

  lemma SeenAlone(own: seq<TenureSpan>, m: string)
    requires forall i :: 0 <= i < |own| ==> own[i].memberId == m
    ensures FirstSeen(own) == [] || FirstSeen(own) == [m]
  {
    SeenMembers(own);
    hide FirstSeen;
    var seen := FirstSeen(own);
    forall k | 0 <= k < |seen| ensures seen[k] == m {
      assert seen[k] in seen;
      var i :| 0 <= i < |own| && PartyOf(seen[k])(own[i]);
    }
    DistinctWithin(seen, {m});
  }

  lemma OwnRuns(spans: seq<TenureSpan>, m: string)
    requires Plain(spans) && Plain(Filter(spans, Of(m)))
    ensures AllRuns(Filter(spans, Of(m)), FirstSeen(Filter(spans, Of(m)))) == MemberRuns(spans, m)
  {
    var own := Filter(spans, Of(m));
    SameDateOrder(spans, m);
    RunsOnlyOfSeen(own, m);
    forall i | 0 <= i < |own| ensures own[i].memberId == m { FilterMember(spans, Of(m), own[i]); }
    SeenAlone(own, m);
    hide PlainSpan, Filter, FirstSeen, MemberRuns, DateOrdered;
    var seen := FirstSeen(own);
    if seen != [] {
      assert seen[1..] == [] && AllRuns(own, seen[1..]) == [];
      assert AllRuns(own, seen) == MemberRuns(own, m) + [];
    }
  }

  lemma SameDateOrder(spans: seq<TenureSpan>, m: string)
    requires Plain(spans) && Plain(Filter(spans, Of(m)))
    ensures MemberRuns(Filter(spans, Of(m)), m) == MemberRuns(spans, m)
  {
    hide PlainSpan, SortBy, Filter, Runs;
    FilterTwice(spans, Of(m), PartyOf(m));
    assert DateOrdered(Filter(spans, Of(m)), m) == DateOrdered(spans, m);
    hide DateOrdered;
  }

  /** Spans of other kinds pass through untouched, in id order. */
  lemma OtherKindsPassThrough(spans: seq<TenureSpan>)
    requires Plain(spans)
    ensures Filter(Merged(spans), NotParty) == SortBy(Filter(spans, NotParty), SourceOrder)
  {
    var pass, runs := Filter(spans, NotParty), AllRuns(spans, FirstSeen(spans));
    SortByFilters(Unsorted(spans), SourceOrder, NotParty);
    FilterAppend(pass, runs, NotParty);
    forall i | 0 <= i < |pass| ensures NotParty(pass[i]) { FilterMember(spans, NotParty, pass[i]); }
    forall i | 0 <= i < |runs| ensures !NotParty(runs[i]) {
      AllRunsMembers(spans, FirstSeen(spans), runs[i]);
      MemberRunsAlternate(spans, runs[i].memberId);
      var own := MemberRuns(spans, runs[i].memberId);
      var k :| 0 <= k < |own| && own[k] == runs[i];
    }
    FilterAllOrNone(pass, NotParty);
    FilterAllOrNone(runs, NotParty);
    hide SortBy, Filter, AllRuns, PlainSpan;
    assert pass + [] == pass;
  }
}
