/** Departures: what is left of a departed member's tenures, and what a closing loses.
    Also what the overlay mints, and whom it leaves alone. */
module OverlayDepartures {
  import opened Ordering
  import opened Terms
  import opened Tenure
  import opened TenureBuilder
  import opened PartyContinuity
  import opened PartyMergeLaws
  import opened OperatorOverlay
  import opened OverlayLaws

  // ----- One closing

  /** What the sweep's turn at `i` closed, it closed on the departure's day; the days it
      took from the tenure are those after it, up to the return if the member returned,
      and the tail that holds the rest is the same tenure, keyed on its own biennium. */
  lemma ClosingLosesTheGap(spans: seq<TenureSpan>, i: nat, e: SuccessionEvent, seated: map<SourceKey, Date>, context: seq<TenureSpan>, x: Date)
    requires i < |spans| && SweptAt(spans, i, e, seated, context) != spans
    ensures var s, v := spans[i], SweptAt(spans, i, e, seated, context);
            var split := |v| > |spans|;
            && v[i].Covers(x) == (s.Covers(x) && x <= e.effectiveDate)
            && (split ==> v[|spans|].Covers(x) == (s.Covers(x) && v[|spans|].validFrom <= x))
            && (split ==> s.Covers(v[|spans|].validFrom) && e.effectiveDate < v[|spans|].validFrom)
    ensures var s, v := spans[i], SweptAt(spans, i, e, seated, context);
            && v[i].endBasis == e.basis && v[i].SourceKey() == s.SourceKey()
            && (|v| > |spans| ==> var tail := v[|spans|];
                  && (tail.memberId, tail.kind, tail.discriminator, tail.membership) == (s.memberId, s.kind, s.discriminator, s.membership)
                  && tail.validTo == s.validTo && tail.isActive == s.isActive && tail.endBasis == s.endBasis
                  && tail.startBiennium == BienniumOf(tail.validFrom) != s.startBiennium && tail.startBasis == Derived)
  {
    hide BienniumOf;
  }

  // ----- After a departure's sweep

  /** Another tenure of the member, on another seat, starts after `d` and inside the
      biennium `i` is keyed on: splitting `i` there would publish one id twice. */
  ghost predicate Collides(spans: seq<TenureSpan>, context: seq<TenureSpan>, i: nat, d: Date)
    requires i < |spans|
  {
    exists o :: o in spans + context && ReturnsWithin(o, spans[i], d)
  }

  predicate ReturnsWithin(o: TenureSpan, s: TenureSpan, d: Date) {
    o.memberId == s.memberId && o.Seat() != s.Seat() && d < o.validFrom && BienniumOf(o.validFrom) == s.startBiennium
  }

  /** The departure has been carried out at `i`: the tenure does not run past it, or was
      seated at that very instant, or could not be split. */
  ghost predicate CarriedOut(spans: seq<TenureSpan>, seated: map<SourceKey, Date>, context: seq<TenureSpan>, e: SuccessionEvent, i: nat)
    requires i < |spans|
  {
    spans[i].memberId == e.memberId && IsOpenThrough(spans[i], e.effectiveDate) ==>
      SeatedAtThisInstant(seated, spans[i], e.effectiveDate) || Collides(spans, context, i, e.effectiveDate)
  }

  ghost predicate AllCarriedOut(spans: seq<TenureSpan>, seated: map<SourceKey, Date>, context: seq<TenureSpan>, e: SuccessionEvent) {
    forall i :: 0 <= i < |spans| ==> CarriedOut(spans, seated, context, e, i)
  }

  lemma CollidesOnward(u: seq<TenureSpan>, v: seq<TenureSpan>, context: seq<TenureSpan>, i: nat, d: Date, later: Date)
    requires i < |u| && Onward(u, v, later) && Collides(u, context, i, d)
    ensures Collides(v, context, i, d)
  {
    hide BienniumOf;
    var o :| o in u + context && ReturnsWithin(o, u[i], d);
    if o in u {
      var k :| 0 <= k < |u| && u[k] == o;
      assert v[k] in v + context && ReturnsWithin(v[k], v[i], d);
    } else {
      assert o in v + context && ReturnsWithin(o, v[i], d);
    }
  }

  /** Ends only come earlier. */
  ghost predicate EndsShrink(u: seq<TenureSpan>, v: seq<TenureSpan>) {
    |u| <= |v| && forall i :: 0 <= i < |u| ==> v[i].EndOrOpen() <= u[i].EndOrOpen()
  }

  lemma SweptAtShrinks(spans: seq<TenureSpan>, i: nat, e: SuccessionEvent, seated: map<SourceKey, Date>, context: seq<TenureSpan>)
    requires i < |spans|
    ensures EndsShrink(spans, SweptAt(spans, i, e, seated, context))
  {
    hide ReEntryAfter, SplitTail, SeatedAtThisInstant;
  }

  lemma {:induction false} SweptShrinks(spans: seq<TenureSpan>, k: nat, e: SuccessionEvent, seated: map<SourceKey, Date>, context: seq<TenureSpan>)
    requires k <= |spans|
    ensures EndsShrink(spans, Swept(spans, k, e, seated, context))
  {
    hide SweptAt;
    if k > 0 {
      SweptShrinks(spans, k - 1, e, seated, context);
      SweptAtShrinks(Swept(spans, k - 1, e, seated, context), k - 1, e, seated, context);
    }
  }

  /** The turn at `i` carries the departure out there. */
  lemma SweptAtCarriesOut(spans: seq<TenureSpan>, i: nat, e: SuccessionEvent, seated: map<SourceKey, Date>, context: seq<TenureSpan>)
    requires i < |spans|
    ensures CarriedOut(SweptAt(spans, i, e, seated, context), seated, context, e, i)
  {
    var s, v := spans[i], SweptAt(spans, i, e, seated, context);
    hide BienniumOf;
    if v == spans && s.memberId == e.memberId && IsOpenThrough(s, e.effectiveDate) && !SeatedAtThisInstant(seated, s, e.effectiveDate) {
      ClosedIsNotOpen(s, e);
      var reEntry := ReEntryAfter(spans + context, s, e.effectiveDate);
      assert reEntry.Some?;
      assert ReturnsWithin(reEntry.value, s, e.effectiveDate);
    } else {
      ClosedIsNotOpen(s, e);
    }
  }

  lemma ClosedIsNotOpen(s: TenureSpan, e: SuccessionEvent)
    ensures !IsOpenThrough(Close(s, e), e.effectiveDate)
    ensures IsOpenThrough(s, e.effectiveDate) ==> Close(s, e) != s
  {
  }

  /** A later departure's sweep, or the rest of this one's, undoes nothing. */
  lemma CarriedOutOnward(u: seq<TenureSpan>, v: seq<TenureSpan>, seated: map<SourceKey, Date>, context: seq<TenureSpan>, e: SuccessionEvent, later: Date, i: nat)
    requires i < |u| && Onward(u, v, later) && EndsShrink(u, v) && CarriedOut(u, seated, context, e, i)
    ensures CarriedOut(v, seated, context, e, i)
  {
    hide Collides;
    if Collides(u, context, i, e.effectiveDate) { CollidesOnward(u, v, context, i, e.effectiveDate, later); }
  }

  lemma {:induction false} SweptCarriesOut(spans: seq<TenureSpan>, k: nat, e: SuccessionEvent, seated: map<SourceKey, Date>, context: seq<TenureSpan>)
    requires k <= |spans|
    ensures forall i :: 0 <= i < k ==> CarriedOut(Swept(spans, k, e, seated, context), seated, context, e, i)
  {
    hide SweptAt, CarriedOut, Onward, EndsShrink;
    if k > 0 {
      var u, v := Swept(spans, k - 1, e, seated, context), Swept(spans, k, e, seated, context);
      SweptCarriesOut(spans, k - 1, e, seated, context);
      SweptAtOnward(u, k - 1, e, seated, context);
      SweptAtShrinks(u, k - 1, e, seated, context);
      SweptAtCarriesOut(u, k - 1, e, seated, context);
      forall i | 0 <= i < k - 1 ensures CarriedOut(v, seated, context, e, i) {
        CarriedOutOnward(u, v, seated, context, e, e.effectiveDate, i);
      }
    }
  }

  lemma AddedNotOpen(u: seq<TenureSpan>, v: seq<TenureSpan>, seated: map<SourceKey, Date>, context: seq<TenureSpan>, e: SuccessionEvent, later: Date, i: nat)
    requires Onward(u, v, later) && e.effectiveDate <= later && |u| <= i < |v|
    ensures CarriedOut(v, seated, context, e, i)
  {
  }

  lemma DepartureCarriesOut(st: State, e: SuccessionEvent, context: seq<TenureSpan>)
    ensures AllCarriedOut(AfterDeparture(st, e, context).spans, st.seated, context, e)
  {
    hide Swept, CarriedOut;
    var u := st.spans;
    var v := Swept(u, |u|, e, st.seated, context);
    SweptCarriesOut(u, |u|, e, st.seated, context);
    SweptOnward(u, |u|, e, st.seated, context);
    forall i | 0 <= i < |v| ensures CarriedOut(v, st.seated, context, e, i) {
      if i >= |u| { AddedNotOpen(u, v, st.seated, context, e, e.effectiveDate, i); }
    }
  }

  lemma LaterDepartureKeeps(st: State, e: SuccessionEvent, f: SuccessionEvent, context: seq<TenureSpan>)
    requires AllCarriedOut(st.spans, st.seated, context, e) && e.effectiveDate <= f.effectiveDate
    ensures AllCarriedOut(AfterDeparture(st, f, context).spans, st.seated, context, e)
  {
    hide Swept, CarriedOut;
    var u := st.spans;
    var v := Swept(u, |u|, f, st.seated, context);
    SweptOnward(u, |u|, f, st.seated, context);
    SweptShrinks(u, |u|, f, st.seated, context);
    forall i | 0 <= i < |v| ensures CarriedOut(v, st.seated, context, e, i) {
      if i < |u| {
        CarriedOutOnward(u, v, st.seated, context, e, f.effectiveDate, i);
      } else {
        AddedNotOpen(u, v, st.seated, context, e, f.effectiveDate, i);
      }
    }
  }

  // ----- Over a whole run

  ghost predicate DeparturesInOrder(events: seq<SuccessionEvent>) {
    && (forall i :: 0 <= i < |events| ==> events[i].kind == Departed)
    && (forall i, j :: 0 <= i < j < |events| ==> events[i].effectiveDate <= events[j].effectiveDate)
  }

  lemma {:induction false} DeparturesKeep(st: State, events: seq<SuccessionEvent>, g: Setting, e: SuccessionEvent)
    requires DeparturesInOrder(events) && AllCarriedOut(st.spans, st.seated, g.context, e)
    requires forall i :: 0 <= i < |events| ==> e.effectiveDate <= events[i].effectiveDate
    ensures var end := AfterEvents(st, events, g); end.seated == st.seated && AllCarriedOut(end.spans, st.seated, g.context, e)
    decreases |events|
  {
    hide AllCarriedOut, Swept;
    if events != [] {
      LaterDepartureKeeps(st, e, events[0], g.context);
      DeparturesKeep(AfterEvent(st, events[0], g), events[1..], g, e);
    }
  }

  lemma {:induction false} DeparturesCarryOut(st: State, events: seq<SuccessionEvent>, g: Setting, e: SuccessionEvent)
    requires DeparturesInOrder(events) && e in events
    ensures var end := AfterEvents(st, events, g); end.seated == st.seated && AllCarriedOut(end.spans, st.seated, g.context, e)
    decreases |events|
  {
    hide AllCarriedOut, Swept;
    var next := AfterEvent(st, events[0], g);
    if events[0] == e {
      DepartureCarriesOut(st, e, g.context);
      DeparturesKeep(next, events[1..], g, e);
    } else {
      DeparturesCarryOut(next, events[1..], g, e);
    }
  }

  lemma {:induction false} EventsInTwo(st: State, a: seq<SuccessionEvent>, b: seq<SuccessionEvent>, g: Setting)
    ensures AfterEvents(st, a + b, g) == AfterEvents(AfterEvents(st, a, g), b, g)
    decreases |a|
  {
    hide AfterEvent;
    if a == [] {
      assert a + b == b;
    } else {
      assert (a + b)[0] == a[0] && (a + b)[1..] == a[1..] + b;
      EventsInTwo(AfterEvent(st, a[0], g), a[1..], b, g);
    }
  }

  lemma EventOrderMeans(e: SuccessionEvent, f: SuccessionEvent)
    requires KeyLe(EventOrder(e), EventOrder(f))
    ensures InTurn(e, f)
  {
    var a, b := EventOrder(e), EventOrder(f);
    assert a[1..] == [Num(e.effectiveDate)] && b[1..] == [Num(f.effectiveDate)];
  }

  /** `e` may come before `f`: a departure waits for whatever is not one, and within either
      sort the dates decide. */
  predicate InTurn(e: SuccessionEvent, f: SuccessionEvent) {
    if e.kind == Departed then f.kind == Departed && e.effectiveDate <= f.effectiveDate
    else f.kind == Departed || e.effectiveDate <= f.effectiveDate
  }

  /** Neither comes before the other. */
  predicate SameTurn(e: SuccessionEvent, f: SuccessionEvent) {
    e.effectiveDate == f.effectiveDate && (e.kind == Departed <==> f.kind == Departed)
  }

  function TurnOf(f: SuccessionEvent): SuccessionEvent -> bool {
    (e: SuccessionEvent) => SameTurn(e, f)
  }

  /** The events apply each in its turn, none lost and none twice; those of one day keep
      the order they were given in. */
  lemma EventsApplyInTurn(events: seq<SuccessionEvent>)
    ensures var ordered := InOrder(events);
            && multiset(ordered) == multiset(events)
            && (forall i, j :: 0 <= i < j < |ordered| ==> InTurn(ordered[i], ordered[j]))
            && (forall f :: Filter(ordered, TurnOf(f)) == Filter(events, TurnOf(f)))
  {
    SortBySorts(events, EventOrder);
    var ordered := InOrder(events);
    hide SortBy, EventOrder, KeyLe;
    forall i, j | 0 <= i < j < |ordered| ensures InTurn(ordered[i], ordered[j]) {
      assert KeyLe(EventOrder(ordered[i]), EventOrder(ordered[j]));
      EventOrderMeans(ordered[i], ordered[j]);
    }
    forall f ensures Filter(ordered, TurnOf(f)) == Filter(events, TurnOf(f)) {
      SortByFilters(events, EventOrder, TurnOf(f));
      AllOfFilter(events, f);
      AllInTurn(Filter(events, TurnOf(f)), f);
    }
  }

  lemma AllOfFilter(events: seq<SuccessionEvent>, f: SuccessionEvent)
    ensures forall e :: e in Filter(events, TurnOf(f)) ==> SameTurn(e, f)
  {
    forall e | e in Filter(events, TurnOf(f)) ensures SameTurn(e, f) { FilterMember(events, TurnOf(f), e); }
  }

  /** Events of one turn are sorted as they are. */
  lemma {:induction false} AllInTurn(events: seq<SuccessionEvent>, f: SuccessionEvent)
    requires forall e :: e in events ==> SameTurn(e, f)
    ensures SortBy(events, EventOrder) == events
  {
    if events != [] {
      AllInTurn(events[1..], f);
      if |events| > 1 {
        assert events[0] in events && events[1] in events;
        assert EventOrder(events[0]) == EventOrder(events[1]);
        KeyLeTotal(EventOrder(events[0]), EventOrder(events[1]));
      }
      hide KeyLe;
      assert [events[0]] + events[1..] == events;
    }
  }

  /** The departures are the tail of the run, in date order. */
  lemma DeparturesComeLast(events: seq<SuccessionEvent>, e: SuccessionEvent) returns (n: nat)
    requires e in events && e.kind == Departed
    ensures n <= |InOrder(events)| && DeparturesInOrder(InOrder(events)[n..]) && e in InOrder(events)[n..]
  {
    SortBySorts(events, EventOrder);
    hide SortBy;
    var ordered := InOrder(events);
    n := IndexOfFirst(ordered, e);
    var tail := ordered[n..];
    forall i | 0 <= i < |tail| ensures tail[i].kind == Departed {
      EventOrderReflexive(ordered, n, n + i);
    }
    forall i, j | 0 <= i < j < |tail| ensures tail[i].effectiveDate <= tail[j].effectiveDate {
      assert KeyLe(EventOrder(ordered[n + i]), EventOrder(ordered[n + j]));
      EventOrderMeans(tail[i], tail[j]);
    }
    assert tail[0] == e;
  }

  lemma EventOrderReflexive(ordered: seq<SuccessionEvent>, i: nat, j: nat)
    requires SortedBy(ordered, EventOrder) && i <= j < |ordered| && ordered[i].kind == Departed
    ensures ordered[j].kind == Departed
  {
    if i < j { EventOrderMeans(ordered[i], ordered[j]); }
  }

  lemma {:induction false} IndexOfFirst(s: seq<SuccessionEvent>, e: SuccessionEvent) returns (n: nat)
    requires e in s
    ensures n < |s| && s[n] == e
  {
    if s[0] == e { n := 0; } else { var m := IndexOfFirst(s[1..], e); n := m + 1; }
  }

  // ----- What "seated" remembers

  /** Each seating on record is the start of a span under that id. */
  ghost predicate SeatingsTrue(st: State) {
    forall key :: key in st.seated ==> SeatedSpan(st.spans, key, st.seated[key])
  }

  ghost predicate SeatedSpan(spans: seq<TenureSpan>, key: SourceKey, d: Date) {
    exists i :: 0 <= i < |spans| && spans[i].SourceKey() == key && spans[i].validFrom == d
  }

  lemma SeatedSpanOnward(u: seq<TenureSpan>, v: seq<TenureSpan>, key: SourceKey, d: Date)
    requires SeatedSpan(u, key, d) && |u| <= |v|
    requires forall i :: 0 <= i < |u| ==> v[i].SourceKey() == u[i].SourceKey() && (u[i].SourceKey() == key ==> v[i].validFrom == u[i].validFrom)
    ensures SeatedSpan(v, key, d)
  {
    var i :| 0 <= i < |u| && u[i].SourceKey() == key && u[i].validFrom == d;
    assert v[i].SourceKey() == key && v[i].validFrom == d;
  }

  lemma {:induction false} SeatedAllTrue(st: State, targets: seq<nat>, e: SuccessionEvent)
    requires (forall k :: 0 <= k < |targets| ==> targets[k] < |st.spans|) && SeatingsTrue(st)
    ensures SeatingsTrue(SeatedAll(st, targets, e))
    decreases |targets|
  {
    hide SeatedSpan, SeatingStartsTenure;
    if targets != [] {
      var next := SeatedAt(st, targets[0], e);
      forall key | key in next.seated ensures SeatedSpan(next.spans, key, next.seated[key]) {
        if key in st.seated {
          SeatedSpanOnward(st.spans, next.spans, key, st.seated[key]);
        } else {
          assert SeatedSpan(next.spans, key, e.effectiveDate) by { SeatedHere(next.spans, targets[0]); }
        }
      }
      SeatedAllTrue(next, targets[1..], e);
    }
  }

  lemma SeatedHere(spans: seq<TenureSpan>, i: nat)
    requires i < |spans|
    ensures SeatedSpan(spans, spans[i].SourceKey(), spans[i].validFrom)
  {
  }

  lemma EventKeepsSeatings(st: State, e: SuccessionEvent, g: Setting)
    requires SeatingsTrue(st)
    ensures SeatingsTrue(AfterEvent(st, e, g))
  {
    hide SeatedSpan;
    var next := AfterEvent(st, e, g);
    match e.kind
    case Departed =>
      SweptOnward(st.spans, |st.spans|, e, st.seated, g.context);
      hide Swept;
      forall key | key in st.seated ensures SeatedSpan(next.spans, key, st.seated[key]) {
        SeatedSpanOnward(st.spans, next.spans, key, st.seated[key]);
      }
    case Vacated =>
      hide MatchesSeat;
      forall key | key in st.seated ensures SeatedSpan(next.spans, key, st.seated[key]) {
        SeatedSpanOnward(st.spans, next.spans, key, st.seated[key]);
      }
    case Seated =>
      if Owned(e, g.owned) {
        var targets := Targets(st.spans, e);
        var seated := SeatedAll(st, targets, e);
        SeatedAllTrue(st, targets, e);
        hide SeatedAll, Targets, Synthesize, InBiennium;
        forall key | key in next.seated ensures SeatedSpan(next.spans, key, next.seated[key]) {
          if next.spans != seated.spans && key == next.spans[|next.spans| - 1].SourceKey() {
            SeatedHere(next.spans, |next.spans| - 1);
          } else {
            SeatedSpanOnward(seated.spans, next.spans, key, seated.seated[key]);
          }
        }
      }
  }

  lemma {:induction false} EventsKeepSeatings(st: State, events: seq<SuccessionEvent>, g: Setting)
    requires SeatingsTrue(st)
    ensures SeatingsTrue(AfterEvents(st, events, g))
    decreases |events|
  {
    hide AfterEvent, SeatingsTrue;
    if events != [] {
      EventKeepsSeatings(st, events[0], g);
      EventsKeepSeatings(AfterEvent(st, events[0], g), events[1..], g);
    }
  }

  /** After all the events, and before the party merge, no tenure of a departed member
      runs past the departure, unless a tenure of its id was seated on that very day, or
      the member returns on another seat inside the biennium the tenure is keyed on. */
  lemma DepartedHoldNothingPast(spans: seq<TenureSpan>, events: seq<SuccessionEvent>, g: Setting, e: SuccessionEvent, i: nat)
    requires e in events && e.kind == Departed
    requires var end := Overlaid(spans, events, g).spans;
             i < |end| && end[i].memberId == e.memberId && IsOpenThrough(end[i], e.effectiveDate)
    ensures var end := Overlaid(spans, events, g).spans;
            SeatedSpan(end, end[i].SourceKey(), e.effectiveDate) || Collides(end, g.context, i, e.effectiveDate)
  {
    hide Minted, InOrder, AfterEvents, Collides;
    var start := State(spans + MoverTenures(spans, events, g), map[]);
    var ordered, end := InOrder(events), Overlaid(spans, events, g);
    var n := DeparturesComeLast(events, e);
    EventsInTwo(start, ordered[..n], ordered[n..], g);
    assert ordered[..n] + ordered[n..] == ordered;
    DeparturesCarryOut(AfterEvents(start, ordered[..n], g), ordered[n..], g, e);
    EventsKeepSeatings(start, ordered, g);
    assert CarriedOut(end.spans, end.seated, g.context, e, i);
    if SeatedAtThisInstant(end.seated, end.spans[i], e.effectiveDate) {
      assert SeatedSpan(end.spans, end.spans[i].SourceKey(), e.effectiveDate);
    }
  }

  /** Where ids are distinct the tenure seated that day is the tenure itself. */
  lemma OnlySpanSeated(spans: seq<TenureSpan>, i: nat, d: Date)
    requires DistinctSources(spans) && i < |spans| && SeatedSpan(spans, spans[i].SourceKey(), d)
    ensures spans[i].validFrom == d
  {
    var j :| 0 <= j < |spans| && spans[j].SourceKey() == spans[i].SourceKey() && spans[j].validFrom == d;
    if j < i { assert false; }
    if i < j { assert false; }
  }

  // ----- What is minted

  /** `s` is a closed tenure one of the events implies, inside the event's biennium, of a
      member who moved in it. */
  ghost predicate MintedFrom(s: TenureSpan, events: seq<SuccessionEvent>, g: Setting) {
    exists k :: 0 <= k < |events| && MintedBy(s, events[k], g)
  }

  predicate MintedBy(s: TenureSpan, e: SuccessionEvent, g: Setting) {
    var b := BienniumOf(e.effectiveDate);
    && e.kind == Vacated && e.seatKind.Some? && e.seatKind.value in g.owned
    && b in g.movers && e.memberId in g.movers[b]
    && s.memberId == e.memberId && s.kind == e.seatKind.value
    && s.discriminator == (if e.seatDiscriminator.Some? then e.seatDiscriminator.value else "")
    && s.startBiennium == s.endBiennium == b
    && !s.isActive && s.validTo.Some? && s.startBasis == Tenure.Observed && s.endBasis == e.basis
    && s.membership == Principal && s.Windowless()
    && BienniumStart(b) == s.validFrom <= s.validTo.value == e.effectiveDate <= BienniumEnd(b)
  }

  /** A list of mints: each implied by an event, its id not among `keys`, no id twice. */
  ghost predicate GoodMints(minted: seq<TenureSpan>, keys: set<string>, events: seq<SuccessionEvent>, g: Setting) {
    && (forall k :: 0 <= k < |minted| ==> MintedFrom(minted[k], events, g))
    && (forall k :: 0 <= k < |minted| ==> minted[k].SourceId() !in keys)
    && (forall k, l :: 0 <= k < l < |minted| ==> minted[k].SourceId() != minted[l].SourceId())
  }

  lemma {:induction false} MintedAre(candidates: seq<TenureSpan>, keys: set<string>, events: seq<SuccessionEvent>, g: Setting)
    ensures GoodMints(Minted(candidates, keys, events, g), keys, events, g)
    decreases |events|
  {
    hide GoodMints, Mints;
    if events == [] {
      NoMints(keys, g);
    } else {
      var e, rest := events[0], events[1..];
      assert events == [e] + rest;
      if Mints(candidates, keys, e, g) {
        var s := SynthesizeClosed(e, BienniumOf(e.effectiveDate));
        MintedAre(candidates + [s], keys + {s.SourceId()}, rest, g);
        OneMoreMint(candidates, Minted(candidates + [s], keys + {s.SourceId()}, rest, g), keys, e, rest, g);
      } else {
        MintedAre(candidates, keys, rest, g);
        MintsLater(Minted(candidates, keys, rest, g), keys, e, rest, g);
      }
    }
  }

  lemma NoMints(keys: set<string>, g: Setting)
    ensures GoodMints([], keys, [], g)
  {
  }

  lemma MintsLater(minted: seq<TenureSpan>, keys: set<string>, e: SuccessionEvent, rest: seq<SuccessionEvent>, g: Setting)
    requires GoodMints(minted, keys, rest, g)
    ensures GoodMints(minted, keys, [e] + rest, g)
  {
    hide MintedFrom;
    forall k | 0 <= k < |minted| ensures MintedFrom(minted[k], [e] + rest, g) { MintedLater(minted[k], e, rest, g); }
  }

  lemma OneMoreMint(candidates: seq<TenureSpan>, minted: seq<TenureSpan>, keys: set<string>, e: SuccessionEvent, rest: seq<SuccessionEvent>, g: Setting)
    requires Mints(candidates, keys, e, g)
    requires GoodMints(minted, keys + {SynthesizeClosed(e, BienniumOf(e.effectiveDate)).SourceId()}, rest, g)
    ensures GoodMints([SynthesizeClosed(e, BienniumOf(e.effectiveDate))] + minted, keys, [e] + rest, g)
  {
    var s := SynthesizeClosed(e, BienniumOf(e.effectiveDate));
    MintIsMinted(e, g);
    assert s.SourceId() !in keys;
    hide SynthesizeClosed, TenureSpan.SourceId, MintedBy, BienniumOf;
    assert MintedBy(s, ([e] + rest)[0], g);
    forall k | 0 <= k < |minted| ensures MintedFrom(minted[k], [e] + rest, g) { MintedLater(minted[k], e, rest, g); }
  }

  lemma MintedLater(s: TenureSpan, e: SuccessionEvent, rest: seq<SuccessionEvent>, g: Setting)
    requires MintedFrom(s, rest, g)
    ensures MintedFrom(s, [e] + rest, g)
  {
    var k :| 0 <= k < |rest| && MintedBy(s, rest[k], g);
    assert ([e] + rest)[k + 1] == rest[k];
  }

  lemma MintIsMinted(e: SuccessionEvent, g: Setting)
    requires e.kind == Vacated && Owned(e, g.owned) && e.memberId in MoversOf(g.movers, BienniumOf(e.effectiveDate))
    ensures MintedBy(SynthesizeClosed(e, BienniumOf(e.effectiveDate)), e, g)
  {
    BienniumWindow(e.effectiveDate, BienniumOf(e.effectiveDate));
  }

  /** The pre-pass mints only for movers of an event's biennium, never an id already taken,
      and never one id twice. */
  lemma MintsOnlyForMovers(spans: seq<TenureSpan>, events: seq<SuccessionEvent>, g: Setting)
    ensures GoodMints(MoverTenures(spans, events, g), SourceIds(spans), InOrder(events), g)
    ensures forall i :: 0 <= i < |spans| ==> spans[i].SourceId() in SourceIds(spans)
  {
    MintedAre(spans, SourceIds(spans), InOrder(events), g);
  }

  // ----- Whom the overlay leaves alone

  /** Nothing of `m`'s changed, came or went. */
  ghost predicate LeavesAlone(u: seq<TenureSpan>, v: seq<TenureSpan>, m: string) {
    && |u| <= |v|
    && (forall i :: 0 <= i < |u| ==> v[i].memberId == u[i].memberId && (u[i].memberId == m ==> v[i] == u[i]))
    && (forall i :: |u| <= i < |v| ==> v[i].memberId != m)
  }

  lemma {:induction false} LeavesAloneFilters(u: seq<TenureSpan>, v: seq<TenureSpan>, m: string)
    requires LeavesAlone(u, v, m)
    ensures Filter(v, Of(m)) == Filter(u, Of(m))
  {
    if u == [] {
      FilterAllOrNone(v, Of(m));
    } else {
      LeavesAloneFilters(u[1..], v[1..], m);
    }
  }

  lemma SweptAtLeavesAlone(spans: seq<TenureSpan>, i: nat, e: SuccessionEvent, seated: map<SourceKey, Date>, context: seq<TenureSpan>, m: string)
    requires i < |spans| && e.memberId != m
    ensures LeavesAlone(spans, SweptAt(spans, i, e, seated, context), m)
  {
    hide ReEntryAfter, IsOpenThrough, SeatedAtThisInstant;
  }

  lemma {:induction false} SweptLeavesAlone(spans: seq<TenureSpan>, k: nat, e: SuccessionEvent, seated: map<SourceKey, Date>, context: seq<TenureSpan>, m: string)
    requires k <= |spans| && e.memberId != m
    ensures LeavesAlone(spans, Swept(spans, k, e, seated, context), m)
  {
    hide SweptAt;
    if k > 0 {
      SweptLeavesAlone(spans, k - 1, e, seated, context, m);
      SweptAtLeavesAlone(Swept(spans, k - 1, e, seated, context), k - 1, e, seated, context, m);
    }
  }

  lemma {:induction false} SeatedAllLeavesAlone(st: State, targets: seq<nat>, e: SuccessionEvent, m: string)
    requires e.memberId != m
    requires forall k :: 0 <= k < |targets| ==> targets[k] < |st.spans| && st.spans[targets[k]].memberId == e.memberId
    ensures LeavesAlone(st.spans, SeatedAll(st, targets, e).spans, m)
    decreases |targets|
  {
    hide SeatingStartsTenure;
    if targets != [] {
      SeatedAllLeavesAlone(SeatedAt(st, targets[0], e), targets[1..], e, m);
    }
  }

  lemma EventLeavesAlone(st: State, e: SuccessionEvent, g: Setting, m: string)
    requires e.memberId != m
    ensures LeavesAlone(st.spans, AfterEvent(st, e, g).spans, m)
  {
    match e.kind
    case Departed =>
      SweptLeavesAlone(st.spans, |st.spans|, e, st.seated, g.context, m);
    case Vacated =>
    case Seated =>
      SeatedAllLeavesAlone(st, Targets(st.spans, e), e, m);
      hide SeatedAll, Targets;
  }

  lemma {:induction false} EventsLeaveAlone(st: State, events: seq<SuccessionEvent>, g: Setting, m: string)
    requires forall i :: 0 <= i < |events| ==> events[i].memberId != m
    ensures Filter(AfterEvents(st, events, g).spans, Of(m)) == Filter(st.spans, Of(m))
    decreases |events|
  {
    hide AfterEvent, Filter;
    if events != [] {
      EventLeavesAlone(st, events[0], g, m);
      LeavesAloneFilters(st.spans, AfterEvent(st, events[0], g).spans, m);
      EventsLeaveAlone(AfterEvent(st, events[0], g), events[1..], g, m);
    }
  }

  lemma MintedLeavesAlone(spans: seq<TenureSpan>, events: seq<SuccessionEvent>, g: Setting, m: string)
    requires forall i :: 0 <= i < |InOrder(events)| ==> InOrder(events)[i].memberId != m
    ensures LeavesAlone(spans, spans + MoverTenures(spans, events, g), m)
  {
    hide InOrder, Minted, MintedBy;
    MintsOnlyForMovers(spans, events, g);
    var minted := MoverTenures(spans, events, g);
    forall k | 0 <= k < |minted| ensures minted[k].memberId != m {
      var l :| 0 <= l < |InOrder(events)| && MintedBy(minted[k], InOrder(events)[l], g);
      MintedByNames(minted[k], InOrder(events)[l], g);
    }
  }

  lemma MintedByNames(s: TenureSpan, e: SuccessionEvent, g: Setting)
    requires MintedBy(s, e, g)
    ensures s.memberId == e.memberId && e.kind == Vacated && Owned(e, g.owned)
  {
  }

  /** A member no event names comes out exactly as the party merge alone leaves them. */
  lemma UnnamedMembersAreLeftAlone(spans: seq<TenureSpan>, events: seq<SuccessionEvent>, g: Setting, m: string)
    requires Plain(spans) && EventsOk(events)
    requires forall i :: 0 <= i < |events| ==> events[i].memberId != m
    ensures Plain(Overlaid(spans, events, g).spans)
    ensures Filter(Merged(Overlaid(spans, events, g).spans), Of(m)) == Filter(Merged(spans), Of(m))
  {
    SortBySorts(events, EventOrder);
    OverlaidPlain(spans, events, g);
    hide SortBy, PlainSpan, Minted, Filter, Merged, AfterEvents;
    var ordered, end := InOrder(events), Overlaid(spans, events, g).spans;
    forall i | 0 <= i < |ordered| ensures ordered[i].memberId != m { assert ordered[i] in ordered; }
    MintedLeavesAlone(spans, events, g, m);
    LeavesAloneFilters(spans, spans + MoverTenures(spans, events, g), m);
    EventsLeaveAlone(State(spans + MoverTenures(spans, events, g), map[]), ordered, g, m);
    MergeIsPerMember(spans, m);
    MergeIsPerMember(end, m);
  }
}
