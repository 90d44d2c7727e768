/** What the party merge keeps, and what it does not depend on. */
module PartyContinuityLaws {
  import opened Ordering
  import opened Terms
  import opened Tenure
  import opened TenureBuilder
  import opened PartyContinuity

  // ----- One member's runs

  /** `o` is a run over `s`: same member, same party, and `s`'s window inside its own. */
  predicate Joins(o: TenureSpan, s: TenureSpan) {
    && o.memberId == s.memberId && o.kind == s.kind && o.discriminator == s.discriminator
    && o.validFrom <= s.validFrom && s.EndOrOpen() <= o.EndOrOpen()
  }

  ghost predicate JoinedBy(runs: seq<TenureSpan>, s: TenureSpan) {
    exists k :: 0 <= k < |runs| && Joins(runs[k], s)
  }

  /** One party affiliation of one member, ordered by date. */
  ghost predicate OneMember(ordered: seq<TenureSpan>, m: string) {
    && SortedBy(ordered, ByStart)
    && forall i :: 0 <= i < |ordered| ==> ordered[i].memberId == m && ordered[i].kind == KIND_PARTY
  }

  lemma ByStartMeans(s: TenureSpan, t: TenureSpan)
    ensures KeyLe(ByStart(s), ByStart(t)) <==> s.validFrom < t.validFrom || (s.validFrom == t.validFrom && s.startBiennium <= t.startBiennium)
    ensures ByStart(s) == ByStart(t) <==> s.validFrom == t.validFrom && s.startBiennium == t.startBiennium
  {
    var a, b := ByStart(s), ByStart(t);
    assert a[1..] == [Num(s.startBiennium)] && b[1..] == [Num(t.startBiennium)];
    assert a[1..][1..] == [] && b[1..][1..] == [];
    assert KeyLe(a[1..], b[1..]) <==> s.startBiennium <= t.startBiennium;
    if a == b { assert a[0] == b[0] && a[1] == b[1]; }
  }

  lemma {:induction false} RunsJoin(run: TenureSpan, rest: seq<TenureSpan>, m: string, s: TenureSpan)
    requires PlainSpan(run) && Plain(rest) && OneMember([run] + rest, m)
    requires Joins(run, s) || s in rest
    ensures JoinedBy(Runs(run, rest), s)
    decreases |rest|
  {
    hide PlainSpan, SortedBy;
    var runs := Runs(run, rest);
    if rest == [] {
      assert Joins(runs[0], s);
    } else {
      var next := rest[0];
      OneMemberTail(run, rest, m);
      assert rest == [next] + rest[1..];
      if next.discriminator == run.discriminator {
        var wider := Extend(run, next);
        assert Joins(wider, next) && (Joins(run, s) ==> Joins(wider, s));
        RunsJoin(wider, rest[1..], m, s);
      } else if Joins(run, s) {
        assert Joins(runs[0], s);
      } else {
        RunsJoin(next, rest[1..], m, s);
        var tail := Runs(next, rest[1..]);
        var k :| 0 <= k < |tail| && Joins(tail[k], s);
        assert runs[k + 1] == tail[k];
      }
    }
  }

  lemma OneMemberTail(run: TenureSpan, rest: seq<TenureSpan>, m: string)
    requires PlainSpan(run) && Plain(rest) && OneMember([run] + rest, m) && rest != []
    ensures OneMember(rest, m) && OneMember([rest[0]] + rest[1..], m)
    ensures run.validFrom <= rest[0].validFrom && rest[0].memberId == m == run.memberId && rest[0].kind == KIND_PARTY == run.kind
    ensures rest[0].discriminator == run.discriminator ==> OneMember([Extend(run, rest[0])] + rest[1..], m)
    ensures KeyLe(ByStart(run), ByStart(rest[0]))
  {
    hide PlainSpan, ByStart;
    var all := [run] + rest;
    assert all[0] == run && all[1] == rest[0];
    ByStartMeans(run, rest[0]);
    assert [rest[0]] + rest[1..] == rest;
    forall i, j | 0 <= i < j < |rest| ensures KeyLe(ByStart(rest[i]), ByStart(rest[j])) {
      assert all[i + 1] == rest[i] && all[j + 1] == rest[j];
    }
    forall i | 0 <= i < |rest| ensures rest[i].memberId == m && rest[i].kind == KIND_PARTY { assert all[i + 1] == rest[i]; }
    if rest[0].discriminator == run.discriminator { OneMemberWiden(run, rest, m); }
  }

  lemma OneMemberWiden(run: TenureSpan, rest: seq<TenureSpan>, m: string)
    requires PlainSpan(run) && Plain(rest) && OneMember([run] + rest, m) && rest != []
    ensures OneMember([Extend(run, rest[0])] + rest[1..], m)
  {
    var all, wider := [run] + rest, Extend(run, rest[0]);
    ByStartMeans(run, wider);
    assert ByStart(wider) == ByStart(run) && wider.memberId == run.memberId && wider.kind == run.kind;
    hide PlainSpan, ByStart, Extend, KeyLe;
    SkipSecond(all, wider, rest[1..], m);
  }

  lemma SkipSecond(all: seq<TenureSpan>, wider: TenureSpan, tail: seq<TenureSpan>, m: string)
    requires OneMember(all, m) && |all| >= 2 && all[2..] == tail
    requires ByStart(wider) == ByStart(all[0]) && wider.memberId == m && wider.kind == KIND_PARTY
    ensures OneMember([wider] + tail, m)
  {
    hide ByStart, KeyLe;
    var wide := [wider] + tail;
    forall i | 0 < i < |wide| ensures wide[i] == all[i + 1] {
      assert tail[i - 1] == all[2..][i - 1];
    }
  }

  /** A run's start is one input's, whole, and its end another's: nothing is made up. */
  ghost predicate MadeFrom(spans: seq<TenureSpan>, o: TenureSpan) {
    && (exists h :: h in spans && o.SourceKey() == h.SourceKey() && o.validFrom == h.validFrom && o.startBasis == h.startBasis)
    && (exists t :: t in spans && o.validTo == t.validTo && o.endBasis == t.endBasis)
  }

  lemma {:induction false} RunsMadeFrom(spans: seq<TenureSpan>, run: TenureSpan, rest: seq<TenureSpan>)
    requires PlainSpan(run) && Plain(rest)
    requires MadeFrom(spans, run) && forall s :: s in rest ==> s in spans
    ensures forall k :: 0 <= k < |Runs(run, rest)| ==> MadeFrom(spans, Runs(run, rest)[k])
    decreases |rest|
  {
    if rest != [] {
      var next := rest[0];
      assert MadeFrom(spans, next);
      if next.discriminator == run.discriminator {
        ExtendMadeFrom(spans, run, next);
        RunsMadeFrom(spans, Extend(run, next), rest[1..]);
      } else {
        RunsMadeFrom(spans, next, rest[1..]);
      }
    }
    hide PlainSpan, MadeFrom;
  }

  lemma ExtendMadeFrom(spans: seq<TenureSpan>, run: TenureSpan, next: TenureSpan)
    requires PlainSpan(run) && PlainSpan(next) && MadeFrom(spans, run) && MadeFrom(spans, next)
    ensures MadeFrom(spans, Extend(run, next))
  {
    var o := Extend(run, next);
    var h :| h in spans && run.SourceKey() == h.SourceKey() && run.validFrom == h.validFrom && run.startBasis == h.startBasis;
    var t :| t in spans && run.validTo == t.validTo && run.endBasis == t.endBasis;
    var u :| u in spans && next.validTo == u.validTo && next.endBasis == u.endBasis;
    assert o.SourceKey() == h.SourceKey();
    assert (o.validTo == t.validTo && o.endBasis == t.endBasis) || (o.validTo == u.validTo && o.endBasis == u.endBasis);
  }

  /** Neighbouring runs are of different parties. */
  ghost predicate Alternates(runs: seq<TenureSpan>) {
    forall k :: 0 <= k < |runs| - 1 ==> runs[k].discriminator != runs[k + 1].discriminator
  }

  /** Two spans of different parties never start alike. */
  ghost predicate NoCrossTies(ordered: seq<TenureSpan>) {
    forall i, j :: 0 <= i < |ordered| && 0 <= j < |ordered| && ordered[i].discriminator != ordered[j].discriminator
      ==> ByStart(ordered[i]) != ByStart(ordered[j])
  }

  /** Starts strictly later, one after another. */
  ghost predicate StartsApart(runs: seq<TenureSpan>) {
    forall i, j :: 0 <= i < j < |runs| ==> KeyLe(ByStart(runs[i]), ByStart(runs[j])) && ByStart(runs[i]) != ByStart(runs[j])
  }

  lemma {:induction false} RunsAlternate(run: TenureSpan, rest: seq<TenureSpan>, m: string)
    requires PlainSpan(run) && Plain(rest) && OneMember([run] + rest, m)
    ensures var runs := Runs(run, rest);
            && runs != [] && Alternates(runs) && OneMember(runs, m)
            && runs[0].SourceKey() == run.SourceKey() && ByStart(runs[0]) == ByStart(run)
    decreases |rest|
  {
    hide PlainSpan, SortedBy;
    if rest == [] {
      ByStartMeans(run, run);
      assert [run] + rest == [run];
    } else {
      var next, runs := rest[0], Runs(run, rest);
      OneMemberTail(run, rest, m);
      if next.discriminator == run.discriminator {
        RunsAlternate(Extend(run, next), rest[1..], m);
        ByStartMeans(run, Extend(run, next));
      } else {
        RunsAlternate(next, rest[1..], m);
        OneMemberPrepend(run, Runs(next, rest[1..]), m);
      }
    }
  }

  lemma OneMemberPrepend(run: TenureSpan, runs: seq<TenureSpan>, m: string)
    requires OneMember(runs, m) && runs != [] && run.memberId == m && run.kind == KIND_PARTY
    requires KeyLe(ByStart(run), ByStart(runs[0]))
    ensures OneMember([run] + runs, m)
  {
    forall j | 0 <= j < |runs| ensures KeyLe(ByStart(run), ByStart(runs[j])) {
      HeadIsLeast(runs, runs[j], ByStart);
      KeyLeTransitive(ByStart(run), ByStart(runs[0]), ByStart(runs[j]));
    }
  }

  lemma {:induction false} RunsStartApart(run: TenureSpan, rest: seq<TenureSpan>, m: string)
    requires PlainSpan(run) && Plain(rest) && OneMember([run] + rest, m) && NoCrossTies([run] + rest)
    ensures StartsApart(Runs(run, rest))
    decreases |rest|
  {
    hide PlainSpan, SortedBy, ByStart;
    if rest != [] {
      var next := rest[0];
      OneMemberTail(run, rest, m);
      NoCrossTiesTail(run, rest);
      if next.discriminator == run.discriminator {
        RunsStartApart(Extend(run, next), rest[1..], m);
      } else {
        RunsStartApart(next, rest[1..], m);
        RunsAlternate(next, rest[1..], m);
        StartsApartPrepend(run, Runs(next, rest[1..]));
      }
    }
  }

  lemma StartsApartPrepend(run: TenureSpan, runs: seq<TenureSpan>)
    requires StartsApart(runs) && runs != [] && KeyLe(ByStart(run), ByStart(runs[0])) && ByStart(run) != ByStart(runs[0])
    ensures StartsApart([run] + runs)
  {
    hide ByStart;
    forall j | 0 < j < |runs| ensures KeyLe(ByStart(run), ByStart(runs[j])) && ByStart(run) != ByStart(runs[j]) {
      KeyLeTransitive(ByStart(run), ByStart(runs[0]), ByStart(runs[j]));
      KeyLeTotal(ByStart(run), ByStart(runs[0]));
    }
  }

  lemma NoCrossTiesTail(run: TenureSpan, rest: seq<TenureSpan>)
    requires PlainSpan(run) && Plain(rest) && NoCrossTies([run] + rest) && rest != []
    ensures NoCrossTies([rest[0]] + rest[1..])
    ensures rest[0].discriminator == run.discriminator ==> NoCrossTies([Extend(run, rest[0])] + rest[1..])
    ensures rest[0].discriminator != run.discriminator ==> ByStart(run) != ByStart(rest[0])
  {
    ExtendStartsAlike(run, rest[0]);
    NoCrossTiesBehind(run, rest);
    var wide := Extend(run, rest[0]);
    hide PlainSpan, ByStart, Extend, NoCrossTies;
    if rest[0].discriminator == run.discriminator { NoCrossTiesWidened(run, wide, rest); }
  }

  lemma NoCrossTiesBehind(run: TenureSpan, rest: seq<TenureSpan>)
    requires NoCrossTies([run] + rest) && rest != []
    ensures NoCrossTies([rest[0]] + rest[1..])
    ensures rest[0].discriminator != run.discriminator ==> ByStart(run) != ByStart(rest[0])
  {
    hide ByStart;
    var all := [run] + rest;
    assert all[0] == run && forall i :: 0 <= i < |rest| ==> all[i + 1] == rest[i];
    assert [rest[0]] + rest[1..] == rest;
  }

  lemma ExtendStartsAlike(run: TenureSpan, s: TenureSpan)
    requires PlainSpan(run) && PlainSpan(s)
    ensures ByStart(Extend(run, s)) == ByStart(run) && Extend(run, s).discriminator == run.discriminator
  {
    hide PlainSpan;
    ByStartMeans(run, Extend(run, s));
  }

  lemma NoCrossTiesWidened(run: TenureSpan, wide: TenureSpan, rest: seq<TenureSpan>)
    requires NoCrossTies([run] + rest) && rest != []
    requires ByStart(wide) == ByStart(run) && wide.discriminator == run.discriminator
    ensures NoCrossTies([wide] + rest[1..])
  {
    hide ByStart;
    var all, less := [run] + rest, [wide] + rest[1..];
    assert forall i :: 0 < i < |less| ==> less[i] == all[i + 1];
    forall i, j | 0 <= i < |less| && 0 <= j < |less| && less[i].discriminator != less[j].discriminator
      ensures ByStart(less[i]) != ByStart(less[j])
    {
      var k, l := if i == 0 then 0 else i + 1, if j == 0 then 0 else j + 1;
      assert all[k].discriminator != all[l].discriminator;
    }
  }

  lemma {:induction false} AlternatingRunsStay(run: TenureSpan, rest: seq<TenureSpan>)
    requires PlainSpan(run) && Plain(rest) && Alternates([run] + rest)
    ensures Runs(run, rest) == [run] + rest
    decreases |rest|
  {
    hide PlainSpan;
    if rest != [] {
      var all := [run] + rest;
      assert all[0] == run && all[1] == rest[0];
      assert [rest[0]] + rest[1..] == rest;
      forall k | 0 <= k < |rest| - 1 ensures rest[k].discriminator != rest[k + 1].discriminator {
        assert all[k + 1] == rest[k] && all[k + 2] == rest[k + 1];
      }
      AlternatingRunsStay(rest[0], rest[1..]);
    }
  }
}
