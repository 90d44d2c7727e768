/** The mover pre-pass, turn by turn: exactly which vacancies imply a tenure nobody built. */
module OverlayMints {
  import opened Ordering
  import opened Terms
  import opened Tenure
  import opened TenureBuilder
  import opened OperatorOverlay
  import opened SeatingLaws
  import opened OverlayDepartures

  /** A vacancy of a seat of ours by someone who moved in its biennium. */
  predicate MoverLeaves(e: SuccessionEvent, g: Setting) {
    var b := BienniumOf(e.effectiveDate);
    && e.kind == Vacated && e.seatKind.Some? && e.seatKind.value in g.owned
    && b in g.movers && e.memberId in g.movers[b]
  }

  /** The id of the tenure such a vacancy implies. */
  function ImpliedId(e: SuccessionEvent): string {
    e.memberId + ":" + (if e.seatKind.Some? then e.seatKind.value else "") + ":"
    + (if e.seatDiscriminator.Some? then e.seatDiscriminator.value else "") + ":" + Label(BienniumOf(e.effectiveDate))
  }

  /** The tenure is there: one of the member's in the seat holds the day, or one has its id. */
  ghost predicate Accounted(spans: seq<TenureSpan>, e: SuccessionEvent) {
    exists i :: 0 <= i < |spans| && (HeldOnTheDay(spans[i], e) || spans[i].SourceId() == ImpliedId(e))
  }

  /** The vacated tenure, from the first day of the biennium to the vacancy. */
  ghost predicate IsImplied(s: TenureSpan, e: SuccessionEvent, g: Setting) {
    MintedBy(s, e, g) && s.SourceId() == ImpliedId(e)
  }

  /** The pre-pass over `e`, with `spans` there already, mints the one tenure or none. */
  ghost predicate MintTurn(spans: seq<TenureSpan>, e: SuccessionEvent, g: Setting, minted: seq<TenureSpan>) {
    if MoverLeaves(e, g) && !Accounted(spans, e) then |minted| == 1 && IsImplied(minted[0], e, g) else minted == []
  }

  lemma MintsMeans(spans: seq<TenureSpan>, e: SuccessionEvent, g: Setting)
    ensures Mints(spans, SourceIds(spans), e, g) <==> MoverLeaves(e, g) && !Accounted(spans, e)
  {
    forall i | 0 <= i < |spans| ensures MatchesSeat(spans[i], e) <==> HeldOnTheDay(spans[i], e) { SpelledOut(spans[i], e); }
    ImpliedIdIs(e);
    hide MatchesSeat, HeldOnTheDay, BienniumOf, SynthesizeClosed, TenureSpan.SourceId, ImpliedId;
  }

  lemma ImpliedIdIs(e: SuccessionEvent)
    ensures SynthesizeClosed(e, BienniumOf(e.effectiveDate)).SourceId() == ImpliedId(e)
  {
    hide BienniumOf, Label, BienniumStart;
  }

  lemma OneTurn(spans: seq<TenureSpan>, e: SuccessionEvent, g: Setting)
    ensures MintTurn(spans, e, g, Minted(spans, SourceIds(spans), [e], g))
  {
    MintsMeans(spans, e, g);
    ImpliedIdIs(e);
    hide Mints, Accounted, SourceIds, SynthesizeClosed, ImpliedId;
    assert [e][1..] == [];
    if MoverLeaves(e, g) && !Accounted(spans, e) {
      MintIsMinted(e, g);
      assert Minted(spans, SourceIds(spans), [e], g) == [SynthesizeClosed(e, BienniumOf(e.effectiveDate))] + [];
    }
  }

  lemma SourceIdsGrow(spans: seq<TenureSpan>, s: TenureSpan)
    ensures SourceIds(spans + [s]) == SourceIds(spans) + {s.SourceId()}
  {
    hide TenureSpan.SourceId;
    var more := spans + [s];
    forall id ensures id in SourceIds(more) <==> id in SourceIds(spans) || id == s.SourceId() {
      if id in SourceIds(spans) {
        var i :| 0 <= i < |spans| && spans[i].SourceId() == id;
        assert more[i] == spans[i];
      }
      assert more[|spans|] == s;
    }
  }

  lemma MintedFirst(spans: seq<TenureSpan>, events: seq<SuccessionEvent>, g: Setting)
    requires events != []
    ensures var s := SynthesizeClosed(events[0], BienniumOf(events[0].effectiveDate));
            Minted(spans, SourceIds(spans), events, g)
            == if Mints(spans, SourceIds(spans), events[0], g) then [s] + Minted(spans + [s], SourceIds(spans + [s]), events[1..], g)
               else Minted(spans, SourceIds(spans), events[1..], g)
  {
    hide Mints, SynthesizeClosed, SourceIds;
    SourceIdsGrow(spans, SynthesizeClosed(events[0], BienniumOf(events[0].effectiveDate)));
  }

  lemma {:induction false} MintedInTwo(spans: seq<TenureSpan>, a: seq<SuccessionEvent>, b: seq<SuccessionEvent>, g: Setting)
    ensures var first := Minted(spans, SourceIds(spans), a, g);
            Minted(spans, SourceIds(spans), a + b, g) == first + Minted(spans + first, SourceIds(spans + first), b, g)
    decreases |a|
  {
    hide Mints, SynthesizeClosed, SourceIds;
    if a == [] {
      assert a + b == b && spans + [] == spans;
    } else {
      assert (a + b)[0] == a[0] && (a + b)[1..] == a[1..] + b;
      MintedFirst(spans, a, g);
      MintedFirst(spans, a + b, g);
      hide Minted, Mints;
      if Mints(spans, SourceIds(spans), a[0], g) {
        var s := SynthesizeClosed(a[0], BienniumOf(a[0].effectiveDate));
        MintedInTwo(spans + [s], a[1..], b, g);
        var rest := Minted(spans + [s], SourceIds(spans + [s]), a[1..], g);
        var last := Minted(spans + [s] + rest, SourceIds(spans + [s] + rest), b, g);
        assert spans + [s] + rest == spans + ([s] + rest);
        assert [s] + (rest + last) == ([s] + rest) + last;
      } else {
        MintedInTwo(spans, a[1..], b, g);
      }
    }
  }

  /** Event by event, in the order they apply, the pre-pass mints exactly the tenures that
      movers left and nobody accounts for, given spans and earlier mints. */
  lemma MintsInTurn(spans: seq<TenureSpan>, events: seq<SuccessionEvent>, g: Setting, k: nat)
    requires k < |InOrder(events)|
    ensures var ordered := InOrder(events);
            var before, after := Minted(spans, SourceIds(spans), ordered[..k], g), Minted(spans, SourceIds(spans), ordered[..k + 1], g);
            before <= after <= MoverTenures(spans, events, g) && MintTurn(spans + before, ordered[k], g, after[|before|..])
  {
    hide InOrder, Minted, MintTurn, SourceIds;
    var ordered := InOrder(events);
    var before := Minted(spans, SourceIds(spans), ordered[..k], g);
    assert ordered[..k + 1] == ordered[..k] + [ordered[k]];
    assert ordered == ordered[..k + 1] + ordered[k + 1..];
    MintedInTwo(spans, ordered[..k], [ordered[k]], g);
    MintedInTwo(spans, ordered[..k + 1], ordered[k + 1..], g);
    OneTurn(spans + before, ordered[k], g);
  }

  /** The pre-pass leaves no mover's vacancy without a tenure: one of the member's in the
      seat holds its day, or one has the id it would take. */
  lemma EveryMoverIsAccountedFor(spans: seq<TenureSpan>, events: seq<SuccessionEvent>, g: Setting, e: SuccessionEvent)
    requires e in events && MoverLeaves(e, g)
    ensures Accounted(spans + MoverTenures(spans, events, g), e)
  {
    EventsApplyInTurn(events);
    hide InOrder, Minted, MoverLeaves, Accounted, SourceIds;
    var ordered := InOrder(events);
    assert e in multiset(events) && e in ordered;
    var k :| 0 <= k < |ordered| && ordered[k] == e;
    MintsInTurn(spans, events, g, k);
    var before, after := Minted(spans, SourceIds(spans), ordered[..k], g), Minted(spans, SourceIds(spans), ordered[..k + 1], g);
    var all := spans + MoverTenures(spans, events, g);
    if Accounted(spans + before, e) {
      AccountedLater(spans + before, all, e);
    } else {
      assert all[|spans| + |before|] == after[|before|..][0];
      ImpliedAccounts(all, |spans| + |before|, e, g);
    }
  }

  lemma AccountedLater(u: seq<TenureSpan>, v: seq<TenureSpan>, e: SuccessionEvent)
    requires Accounted(u, e) && u <= v
    ensures Accounted(v, e)
  {
    var i :| 0 <= i < |u| && (HeldOnTheDay(u[i], e) || u[i].SourceId() == ImpliedId(e));
    assert v[i] == u[i];
    hide HeldOnTheDay, TenureSpan.SourceId, ImpliedId;
  }

  lemma ImpliedAccounts(spans: seq<TenureSpan>, i: nat, e: SuccessionEvent, g: Setting)
    requires i < |spans| && IsImplied(spans[i], e, g)
    ensures Accounted(spans, e)
  {
    hide MintedBy, ImpliedId, TenureSpan.SourceId;
  }
}
