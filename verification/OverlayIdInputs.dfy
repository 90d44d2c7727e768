/** An input on which the overlay keeps ids distinct: built spans, departures of members no
    seat event names, and seatings that claim no id another tenure has. */
module OverlayIdInputs {
  import opened Ordering
  import opened Terms
  import opened Tenure
  import opened TenureBuilder
  import opened PartyContinuity
  import opened PartyMergeLaws
  import opened OperatorOverlay
  import opened SeatingLaws
  import opened OverlayLaws
  import opened OverlayDepartures
  import opened OverlayIds

  // ----- Seat events

  /** A seating that would mint, if it finds nothing to date. */
  predicate MayMint(e: SuccessionEvent, g: Setting) {
    e.kind == Seated && Owned(e, g.owned) && InBiennium(e.effectiveDate, g.current)
  }

  /** No seating claims the id of a span, and no two seatings one id. */
  ghost predicate Unclaimed(spans: seq<TenureSpan>, events: seq<SuccessionEvent>, g: Setting) {
    && (forall i :: 0 <= i < |events| && MayMint(events[i], g) ==> !KeyAmong(spans, MintKey(events[i], g.current)))
    && (forall i, j :: 0 <= i < j < |events| && MayMint(events[i], g) && MayMint(events[j], g) ==>
          MintKey(events[i], g.current) != MintKey(events[j], g.current))
  }

  lemma SeatEventAddsItsKey(st: State, e: SuccessionEvent, g: Setting, key: SourceKey)
    requires e.kind != Departed && KeyAmong(AfterEvent(st, e, g).spans, key)
    ensures KeyAmong(st.spans, key) || (MayMint(e, g) && key == MintKey(e, g.current))
  {
    var next := AfterEvent(st, e, g).spans;
    var j :| 0 <= j < |next| && next[j].SourceKey() == key;
    if e.kind == Seated && Owned(e, g.owned) {
      AfterSeatingIs(st, e, g.current);
      SeatingKeys(st, e, g.current, AfterSeating(st, e, g.current));
      hide AfterSeating, SeatingOutcome, MatchesSeat, InBiennium, Starting, TenureSpan.SourceKey;
      if j < |st.spans| { assert st.spans[j].SourceKey() == key; }
    } else {
      assert st.spans[j].SourceKey() == key;
    }
  }

  lemma {:induction false} SeatEventsTakeNone(st: State, events: seq<SuccessionEvent>, g: Setting)
    requires (forall i :: 0 <= i < |events| ==> events[i].kind != Departed) && Unclaimed(st.spans, events, g)
    ensures NoneTaken(st, events, g)
    decreases |events|
  {
    hide AfterEvent, KeyAmong, MintKey;
    if events != [] {
      var e, next := events[0], AfterEvent(st, events[0], g);
      assert !TakesHeldId(st, e, g) by { hide AnyMatches, Starting; }
      hide TakesHeldId, MayMint;
      forall i | 0 <= i < |events[1..]| && MayMint(events[1..][i], g) ensures !KeyAmong(next.spans, MintKey(events[1..][i], g.current)) {
        assert events[i + 1] == events[1..][i];
        if KeyAmong(next.spans, MintKey(events[1..][i], g.current)) { SeatEventAddsItsKey(st, e, g, MintKey(events[1..][i], g.current)); }
      }
      SeatEventsTakeNone(next, events[1..], g);
    }
  }

  // ----- Departures

  predicate EndsBeforeBiennium(s: TenureSpan, b: Biennium) { s.validTo.Some? && BienniumOf(s.validTo.value) < b }

  /** `s` comes before `t` on one seat: it ends in an earlier biennium than `t` starts in,
      or no departure from `d` on will close it. */
  predicate Before(s: TenureSpan, t: TenureSpan, d: int) {
    s.startBiennium < t.startBiennium
    && (EndsBeforeBiennium(s, t.startBiennium) || (s.validTo.Some? && s.validTo.value <= d))
  }

  /** The member's tenures start in the bienniums they are keyed on and follow one another
      seat by seat. */
  ghost predicate InSuccession(spans: seq<TenureSpan>, m: string, d: int) {
    && (forall i :: 0 <= i < |spans| && spans[i].memberId == m ==> BienniumOf(spans[i].validFrom) == spans[i].startBiennium)
    && (forall i, j :: 0 <= i < j < |spans| && spans[i].memberId == spans[j].memberId == m && spans[i].Seat() == spans[j].Seat() ==>
          Before(spans[i], spans[j], d) || Before(spans[j], spans[i], d))
  }

  lemma LaterSuccession(spans: seq<TenureSpan>, m: string, d: int, later: int)
    requires InSuccession(spans, m, d) && d <= later
    ensures InSuccession(spans, m, later)
  {
    hide BienniumOf, TenureSpan.Seat;
  }

  lemma SuccessionLeftAlone(u: seq<TenureSpan>, v: seq<TenureSpan>, m: string, d: int)
    requires InSuccession(u, m, d) && LeavesAlone(u, v, m)
    ensures InSuccession(v, m, d)
  {
    hide Before, BienniumOf, TenureSpan.Seat;
    forall i | 0 <= i < |v| && v[i].memberId == m ensures i < |u| && v[i] == u[i] {}
  }

  /** What a turn of the sweep makes of a tenure it closes. */
  lemma ClosedKeepsPlace(s: TenureSpan, t: TenureSpan, e: SuccessionEvent)
    requires IsOpenThrough(s, e.effectiveDate)
    ensures Before(s, t, e.effectiveDate) ==> Before(Close(s, e), t, e.effectiveDate)
    ensures Before(t, s, e.effectiveDate) ==> Before(t, Close(s, e), e.effectiveDate)
  {
    hide BienniumOf;
  }

  /** The tail's own biennium is later than the head's, and nobody's else on the seat. */
  lemma TailFindsPlace(s: TenureSpan, e: SuccessionEvent, back: Date, t: TenureSpan)
    requires IsOpenThrough(s, e.effectiveDate) && BienniumOf(s.validFrom) == s.startBiennium
    requires e.effectiveDate < back && (s.validTo.None? || back <= s.validTo.value) && SplitTail(s, back).Some?
    ensures var tail := SplitTail(s, back).value;
            && BienniumOf(tail.validFrom) == tail.startBiennium
            && Before(Close(s, e), tail, e.effectiveDate)
            && (Before(s, t, e.effectiveDate) ==> Before(tail, t, e.effectiveDate))
            && (Before(t, s, e.effectiveDate) ==> Before(t, tail, e.effectiveDate))
  {
    BienniumMonotone(s.validFrom, back);
    if s.validTo.Some? { BienniumMonotone(back, s.validTo.value); }
    hide BienniumOf;
  }

  /** A turn of the departed member's sweep takes no held id and leaves the succession. */
  lemma TurnKeepsSuccession(spans: seq<TenureSpan>, k: nat, e: SuccessionEvent, seated: map<SourceKey, Date>, context: seq<TenureSpan>)
    requires k < |spans| && InSuccession(spans, e.memberId, e.effectiveDate)
    ensures !TailTaken(spans, k, e, seated, context)
    ensures InSuccession(SweptAt(spans, k, e, seated, context), e.memberId, e.effectiveDate)
  {
    hide BienniumOf, Before, IsOpenThrough, SeatedAtThisInstant, ReEntryAfter, SplitTail, Close, KeyAmong;
    var s, v := spans[k], SweptAt(spans, k, e, seated, context);
    if v != spans {
      assert s.memberId == e.memberId && IsOpenThrough(s, e.effectiveDate);
      var reEntry := ReEntryAfter(spans + context, s, e.effectiveDate);
      ClosedInSuccession(spans, k, e);
      if reEntry.Some? {
        SplitInSuccession(spans, k, e, reEntry.value.validFrom);
        assert v == spans[k := Close(s, e)] + [SplitTail(s, reEntry.value.validFrom).value];
      }
    }
  }

  lemma ClosedSame(s: TenureSpan, e: SuccessionEvent)
    ensures var c := Close(s, e); c.memberId == s.memberId && c.Seat() == s.Seat() && c.validFrom == s.validFrom && c.startBiennium == s.startBiennium
  {
  }

  lemma ClosedInSuccession(spans: seq<TenureSpan>, k: nat, e: SuccessionEvent)
    requires k < |spans| && InSuccession(spans, e.memberId, e.effectiveDate)
    requires spans[k].memberId == e.memberId && IsOpenThrough(spans[k], e.effectiveDate)
    ensures InSuccession(spans[k := Close(spans[k], e)], e.memberId, e.effectiveDate)
  {
    var v := spans[k := Close(spans[k], e)];
    ClosedSame(spans[k], e);
    hide BienniumOf, Close, IsOpenThrough, Before, TenureSpan.Seat;
    forall i, j | 0 <= i < j < |v| && v[i].memberId == v[j].memberId == e.memberId && v[i].Seat() == v[j].Seat()
      ensures Before(v[i], v[j], e.effectiveDate) || Before(v[j], v[i], e.effectiveDate)
    {
      if i == k { ClosedKeepsPlace(spans[k], spans[j], e); }
      if j == k { ClosedKeepsPlace(spans[k], spans[i], e); }
    }
  }

  lemma TailSame(s: TenureSpan, back: Date)
    requires SplitTail(s, back).Some?
    ensures var t := SplitTail(s, back).value; t.memberId == s.memberId && t.Seat() == s.Seat()
  {
  }

  lemma SplitInSuccession(spans: seq<TenureSpan>, k: nat, e: SuccessionEvent, back: Date)
    requires k < |spans| && InSuccession(spans, e.memberId, e.effectiveDate)
    requires spans[k].memberId == e.memberId && IsOpenThrough(spans[k], e.effectiveDate)
    requires e.effectiveDate < back && (spans[k].validTo.None? || back <= spans[k].validTo.value) && SplitTail(spans[k], back).Some?
    ensures var tail := SplitTail(spans[k], back).value;
            && !KeyAmong(spans, tail.SourceKey())
            && InSuccession(spans[k := Close(spans[k], e)] + [tail], e.memberId, e.effectiveDate)
  {
    var s, tail := spans[k], SplitTail(spans[k], back).value;
    ClosedSame(s, e);
    TailSame(s, back);
    ClosedInSuccession(spans, k, e);
    hide BienniumOf, Close, IsOpenThrough, SplitTail;
    var u := spans[k := Close(s, e)];
    forall i | 0 <= i < |spans| && spans[i].memberId == e.memberId && spans[i].Seat() == s.Seat()
      ensures Before(u[i], tail, e.effectiveDate) || Before(tail, u[i], e.effectiveDate)
      ensures spans[i].startBiennium != tail.startBiennium
    {
      TailFindsPlace(s, e, back, spans[i]);
      if i < k { assert Before(spans[i], s, e.effectiveDate) || Before(s, spans[i], e.effectiveDate); }
      if k < i { assert Before(spans[i], s, e.effectiveDate) || Before(s, spans[i], e.effectiveDate); }
    }
    TailFindsPlace(s, e, back, s);
    hide Before, TenureSpan.Seat;
    forall i | 0 <= i < |spans| ensures spans[i].SourceKey() != tail.SourceKey() { OtherKey(spans[i], tail); }
  }

  lemma OtherKey(s: TenureSpan, t: TenureSpan)
    requires s.memberId == t.memberId && s.Seat() == t.Seat() ==> s.startBiennium != t.startBiennium
    ensures s.SourceKey() != t.SourceKey()
  {
  }

  lemma {:induction false} SweepKeepsSuccession(st: State, k: nat, e: SuccessionEvent, g: Setting)
    requires k <= |st.spans| && InSuccession(st.spans, e.memberId, e.effectiveDate)
    ensures InSuccession(Swept(st.spans, k, e, st.seated, g.context), e.memberId, e.effectiveDate)
    ensures forall j :: 0 <= j < k ==> !TurnTakesId(st, e, g, j)
  {
    hide InSuccession, SweptAt, TailTaken;
    if k > 0 {
      SweepKeepsSuccession(st, k - 1, e, g);
      TurnKeepsSuccession(Swept(st.spans, k - 1, e, st.seated, g.context), k - 1, e, st.seated, g.context);
    }
  }

  /** Every departed member's tenures are in succession. */
  ghost predicate AllInSuccession(spans: seq<TenureSpan>, events: seq<SuccessionEvent>, d: int) {
    forall i :: 0 <= i < |events| && events[i].kind == Departed ==> InSuccession(spans, events[i].memberId, d)
  }

  lemma DepartureKeepsSuccession(st: State, e: SuccessionEvent, g: Setting, m: string, d: int)
    requires e.kind == Departed && d <= e.effectiveDate && InSuccession(st.spans, m, d)
    ensures InSuccession(AfterEvent(st, e, g).spans, m, e.effectiveDate)
    ensures m == e.memberId ==> !TakesHeldId(st, e, g)
  {
    LaterSuccession(st.spans, m, d, e.effectiveDate);
    hide InSuccession, Swept, TurnTakesId;
    if m == e.memberId {
      SweepKeepsSuccession(st, |st.spans|, e, g);
    } else {
      SweptLeavesAlone(st.spans, |st.spans|, e, st.seated, g.context, m);
      SuccessionLeftAlone(st.spans, AfterEvent(st, e, g).spans, m, e.effectiveDate);
    }
  }

  lemma {:induction false} DeparturesTakeNone(st: State, events: seq<SuccessionEvent>, g: Setting, d: int)
    requires DeparturesInOrder(events) && AllInSuccession(st.spans, events, d)
    requires forall i :: 0 <= i < |events| ==> d <= events[i].effectiveDate
    ensures NoneTaken(st, events, g)
    decreases |events|
  {
    hide AfterEvent, TakesHeldId, InSuccession;
    if events != [] {
      var e, next := events[0], AfterEvent(st, events[0], g);
      forall i | 0 <= i < |events| ensures InSuccession(next.spans, events[i].memberId, e.effectiveDate) {
        DepartureKeepsSuccession(st, e, g, events[i].memberId, d);
      }
      DepartureKeepsSuccession(st, e, g, e.memberId, d);
      DeparturesTakeNone(next, events[1..], g, e.effectiveDate);
    }
  }

  // ----- From the seat events to the departures

  ghost predicate NamesNoSeat(events: seq<SuccessionEvent>, g: Setting, m: string) {
    forall i :: 0 <= i < |events| && events[i].memberId == m ==> events[i].kind == Departed || !Owned(events[i], g.owned)
  }

  lemma {:induction false} SeatEventsKeepSuccession(st: State, events: seq<SuccessionEvent>, g: Setting, m: string, d: int)
    requires (forall i :: 0 <= i < |events| ==> events[i].kind != Departed) && NamesNoSeat(events, g, m) && InSuccession(st.spans, m, d)
    ensures InSuccession(AfterEvents(st, events, g).spans, m, d)
    decreases |events|
  {
    hide InSuccession, Owned;
    if events != [] {
      var next := AfterEvent(st, events[0], g);
      if events[0].memberId == m {
        assert next == st;
      } else {
        EventLeavesAlone(st, events[0], g, m);
        SuccessionLeftAlone(st.spans, next.spans, m, d);
      }
      hide AfterEvent;
      SeatEventsKeepSuccession(next, events[1..], g, m, d);
    }
  }

  lemma {:induction false} NoneTakenInTwo(st: State, a: seq<SuccessionEvent>, b: seq<SuccessionEvent>, g: Setting)
    requires NoneTaken(st, a, g) && NoneTaken(AfterEvents(st, a, g), b, g)
    ensures NoneTaken(st, a + b, g)
    decreases |a|
  {
    hide AfterEvent, TakesHeldId;
    if a == [] {
      assert a + b == b;
    } else {
      assert (a + b)[0] == a[0] && (a + b)[1..] == a[1..] + b;
      NoneTakenInTwo(AfterEvent(st, a[0], g), a[1..], b, g);
    }
  }

  /** Where the departures begin. */
  lemma {:induction false} FirstDeparture(ordered: seq<SuccessionEvent>) returns (n: nat)
    requires SortedBy(ordered, EventOrder)
    ensures n <= |ordered| && (forall i :: 0 <= i < n ==> ordered[i].kind != Departed) && DeparturesInOrder(ordered[n..])
  {
    hide EventOrder, KeyLe;
    if i :| 0 <= i < |ordered| && ordered[i].kind == Departed && forall j :: 0 <= j < i ==> ordered[j].kind != Departed {
      n := i;
      TailDeparts(ordered, n);
    } else {
      n := |ordered|;
      NoneDepart(ordered, n);
      assert ordered[n..] == [];
    }
  }

  lemma {:induction false} NoneDepart(ordered: seq<SuccessionEvent>, n: nat)
    requires n <= |ordered|
    requires forall i :: 0 <= i < |ordered| && ordered[i].kind == Departed ==> exists j :: 0 <= j < i && ordered[j].kind == Departed
    ensures forall i :: 0 <= i < n ==> ordered[i].kind != Departed
  {
    if n > 0 { NoneDepart(ordered, n - 1); }
  }

  lemma TailDeparts(ordered: seq<SuccessionEvent>, n: nat)
    requires SortedBy(ordered, EventOrder) && n < |ordered| && ordered[n].kind == Departed
    ensures DeparturesInOrder(ordered[n..])
  {
    hide EventOrder, KeyLe;
    var tail := ordered[n..];
    forall i | 0 <= i < |tail| ensures tail[i].kind == Departed { EventOrderReflexive(ordered, n, n + i); }
    forall i, j | 0 <= i < j < |tail| ensures tail[i].effectiveDate <= tail[j].effectiveDate {
      assert KeyLe(EventOrder(ordered[n + i]), EventOrder(ordered[n + j]));
      EventOrderMeans(tail[i], tail[j]);
    }
  }

  // ----- What the builder makes

  /** Nothing was observed past the biennium the builder was told is current. */
  predicate NothingPast(built: seq<TenureSpan>, current: Biennium) {
    forall i :: 0 <= i < |built| ==> built[i].endBiennium <= current
  }

  lemma BuiltBefore(obs: seq<Observation>, current: Biennium, s: TenureSpan, t: TenureSpan, d: int)
    requires IsRunSpan(obs, current, s) && IsRunSpan(obs, current, t) && SpanKey(s) == SpanKey(t)
    requires s.startBiennium < t.startBiennium && t.endBiennium <= current
    ensures Before(s, t, d)
  {
    if t.startBiennium <= s.endBiennium {
      CoveredOnce(obs, current, s, t, SpanKey(s), t.startBiennium);
      assert false;
    }
    BienniumLength(s.endBiennium);
    BienniumWindow(BienniumEnd(s.endBiennium), s.endBiennium);
  }

  lemma BuiltInSuccession(obs: seq<Observation>, current: Biennium, built: seq<TenureSpan>, m: string, d: int)
    requires MaximalRuns(obs, current, built) && NothingPast(built, current)
    ensures InSuccession(built, m, d)
  {
    BuiltSpansAreSound(obs, current, built);
    hide IsRunSpan, BienniumOf, Before, SortedBy, TenureSpan.Sound, Starts, StartedBy;
    assert forall i :: 0 <= i < |built| ==> built[i] in built;
    forall i, j | 0 <= i < j < |built| && built[i].memberId == built[j].memberId == m && built[i].Seat() == built[j].Seat()
      ensures Before(built[i], built[j], d) || Before(built[j], built[i], d)
    {
      assert built[i].SourceKey() != built[j].SourceKey();
      BuiltEitherBefore(obs, current, built[i], built[j], d);
    }
  }

  lemma BuiltEitherBefore(obs: seq<Observation>, current: Biennium, s: TenureSpan, t: TenureSpan, d: int)
    requires IsRunSpan(obs, current, s) && IsRunSpan(obs, current, t) && s.SourceKey() != t.SourceKey()
    requires s.memberId == t.memberId && s.Seat() == t.Seat() && s.endBiennium <= current && t.endBiennium <= current
    ensures Before(s, t, d) || Before(t, s, d)
  {
    hide IsRunSpan, Before;
    if s.startBiennium < t.startBiennium { BuiltBefore(obs, current, s, t, d); } else { BuiltBefore(obs, current, t, s, d); }
  }

  /** The mover pre-pass mints nothing for a member no seat event names. */
  lemma MintsLeaveAlone(spans: seq<TenureSpan>, events: seq<SuccessionEvent>, g: Setting, m: string)
    requires NamesNoSeat(InOrder(events), g, m)
    ensures LeavesAlone(spans, Start(spans, events, g).spans, m)
  {
    hide InOrder, Minted, MintedBy, Owned;
    MintsOnlyForMovers(spans, events, g);
    var minted := MoverTenures(spans, events, g);
    forall k | 0 <= k < |minted| ensures minted[k].memberId != m {
      var l :| 0 <= l < |InOrder(events)| && MintedBy(minted[k], InOrder(events)[l], g);
      MintedByNames(minted[k], InOrder(events)[l], g);
    }
  }

  lemma BuiltTakeNone(obs: seq<Observation>, current: Biennium, built: seq<TenureSpan>, events: seq<SuccessionEvent>, g: Setting)
    requires MaximalRuns(obs, current, built) && NothingPast(built, current)
    requires forall i :: 0 <= i < |events| && events[i].kind == Departed ==> NamesNoSeat(events, g, events[i].memberId)
    requires Unclaimed(Start(built, events, g).spans, InOrder(events), g)
    ensures NoneTaken(Start(built, events, g), InOrder(events), g)
  {
    hide MaximalRuns, InOrder, Minted, AfterEvents, NoneTaken, InSuccession, Owned, SortedBy, Start, NamesNoSeat, Unclaimed, NothingPast;
    var start, ordered := Start(built, events, g), InOrder(events);
    SameInOrder(events);
    var n := FirstDeparture(ordered);
    var a, b := ordered[..n], ordered[n..];
    var mid := AfterEvents(start, a, g);
    forall i | 0 <= i < |b| ensures InSuccession(mid.spans, b[i].memberId, 0) {
      assert b[i] == ordered[n + i] && b[i] in events;
      BuiltSuccessionLasts(obs, current, built, events, g, n, b[i].memberId);
    }
    UnclaimedEarlier(start.spans, ordered, g, n);
    SeatEventsTakeNone(start, a, g);
    DeparturesTakeNone(mid, b, g, 0);
    NoneTakenInTwo(start, a, b, g);
    assert a + b == ordered;
  }

  /** On spans the builder made, ids stay distinct if no departed member is named by a seat
      event and no seating in the current biennium claims an id held or claimed already. */
  lemma BuiltIdsStayDistinct(obs: seq<Observation>, current: Biennium, built: seq<TenureSpan>, events: seq<SuccessionEvent>, g: Setting)
    requires MaximalRuns(obs, current, built) && NothingPast(built, current)
    requires forall i :: 0 <= i < |events| && events[i].kind == Departed ==> NamesNoSeat(events, g, events[i].memberId)
    requires Unclaimed(Start(built, events, g).spans, InOrder(events), g)
    ensures DistinctSources(Overlaid(built, events, g).spans)
  {
    BuiltTakeNone(obs, current, built, events, g);
    hide NoneTaken, Start, InOrder, Overlaid, Unclaimed, NamesNoSeat;
    IdsStayDistinctExactly(built, events, g);
  }

  lemma BuiltSuccessionLasts(obs: seq<Observation>, current: Biennium, built: seq<TenureSpan>, events: seq<SuccessionEvent>, g: Setting, n: nat, m: string)
    requires MaximalRuns(obs, current, built) && NothingPast(built, current)
    requires NamesNoSeat(events, g, m) && n <= |InOrder(events)|
    requires forall i :: 0 <= i < n ==> InOrder(events)[i].kind != Departed
    ensures InSuccession(AfterEvents(Start(built, events, g), InOrder(events)[..n], g).spans, m, 0)
  {
    SameInOrder(events);
    SameNames(events, InOrder(events), g, m);
    NamesEarlier(InOrder(events), g, m, n);
    hide MaximalRuns, NothingPast, InOrder, AfterEvents, InSuccession, Owned, Start, NamesNoSeat;
    BuiltInSuccession(obs, current, built, m, 0);
    MintsLeaveAlone(built, events, g, m);
    SuccessionLeftAlone(built, Start(built, events, g).spans, m, 0);
    SeatEventsKeepSuccession(Start(built, events, g), InOrder(events)[..n], g, m, 0);
  }

  lemma SameInOrder(events: seq<SuccessionEvent>)
    ensures SortedBy(InOrder(events), EventOrder)
    ensures forall e :: e in InOrder(events) <==> e in events
  {
    SortBySorts(events, EventOrder);
  }

  lemma NamesEarlier(ordered: seq<SuccessionEvent>, g: Setting, m: string, n: nat)
    requires NamesNoSeat(ordered, g, m) && n <= |ordered|
    ensures NamesNoSeat(ordered[..n], g, m)
  {
    hide Owned;
  }

  lemma SameNames(events: seq<SuccessionEvent>, ordered: seq<SuccessionEvent>, g: Setting, m: string)
    requires NamesNoSeat(events, g, m) && forall e :: e in ordered <==> e in events
    ensures NamesNoSeat(ordered, g, m)
  {
    hide Owned;
    forall i | 0 <= i < |ordered| && ordered[i].memberId == m ensures ordered[i].kind == Departed || !Owned(ordered[i], g.owned) {
      assert ordered[i] in ordered;
    }
  }

  lemma UnclaimedEarlier(spans: seq<TenureSpan>, ordered: seq<SuccessionEvent>, g: Setting, n: nat)
    requires Unclaimed(spans, ordered, g) && n <= |ordered|
    ensures Unclaimed(spans, ordered[..n], g)
  {
    hide KeyAmong, MayMint, MintKey;
  }

  /** There a departure leaves nothing of the member's running past it, unless the tenure
      opens that day or the member returns inside its biennium. */
  lemma DepartedBuiltHoldNothingPast(obs: seq<Observation>, current: Biennium, built: seq<TenureSpan>, events: seq<SuccessionEvent>, g: Setting, e: SuccessionEvent, i: nat)
    requires MaximalRuns(obs, current, built) && NothingPast(built, current)
    requires forall k :: 0 <= k < |events| && events[k].kind == Departed ==> NamesNoSeat(events, g, events[k].memberId)
    requires Unclaimed(Start(built, events, g).spans, InOrder(events), g)
    requires e in events && e.kind == Departed
    requires var end := Overlaid(built, events, g).spans;
             i < |end| && end[i].memberId == e.memberId && IsOpenThrough(end[i], e.effectiveDate)
    ensures var end := Overlaid(built, events, g).spans;
            end[i].validFrom == e.effectiveDate || Collides(end, g.context, i, e.effectiveDate)
  {
    hide MaximalRuns, Minted, InOrder, AfterEvents, Unclaimed, NamesNoSeat, Collides;
    var end := Overlaid(built, events, g).spans;
    BuiltIdsStayDistinct(obs, current, built, events, g);
    DepartedHoldNothingPast(built, events, g, e, i);
    hide Overlaid;
    if SeatedSpan(end, end[i].SourceKey(), e.effectiveDate) { OnlySpanSeated(end, i, e.effectiveDate); }
  }
}
