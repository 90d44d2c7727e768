/** Departures, turn by turn: which tenures end, which go on after a return, and which are
    left as they are. */
module OverlayReturns {
  import opened Ordering
  import opened Terms
  import opened Tenure
  import opened OperatorOverlay
  import opened SeatingLaws

  // ----- What a turn goes by

  /** The departure is this member's, the tenure runs on past its day, and was not seated
      on that very day. */
  predicate Departing(s: TenureSpan, e: SuccessionEvent, seated: map<SourceKey, Date>) {
    && s.memberId == e.memberId
    && s.validFrom <= e.effectiveDate < s.EndOrOpen()
    && !(s.SourceKey() in seated && seated[s.SourceKey()] == e.effectiveDate)
  }

  /** The member is back, on another seat, after the day and while `s` would have run. */
  predicate Returns(o: TenureSpan, s: TenureSpan, d: Date) {
    && o.memberId == s.memberId && (o.kind, o.discriminator) != (s.kind, s.discriminator)
    && d < o.validFrom <= s.EndOrOpen()
  }

  ghost predicate FirstReturn(list: seq<TenureSpan>, n: nat, s: TenureSpan, d: Date) {
    n < |list| && Returns(list[n], s, d) && forall m :: 0 <= m < n ==> !Returns(list[m], s, d)
  }

  /** The first return is in another biennium than the one `s` is keyed on. */
  ghost predicate GoesOnApart(list: seq<TenureSpan>, s: TenureSpan, d: Date) {
    exists n: nat :: FirstReturn(list, n, s, d) && BienniumOf(list[n].validFrom) != s.startBiennium
  }

  /** The first return is in the very biennium `s` is keyed on. */
  ghost predicate GoesOnWhole(list: seq<TenureSpan>, s: TenureSpan, d: Date) {
    exists n: nat :: FirstReturn(list, n, s, d) && BienniumOf(list[n].validFrom) == s.startBiennium
  }

  ghost predicate GoneForGood(list: seq<TenureSpan>, s: TenureSpan, d: Date) {
    forall n :: 0 <= n < |list| ==> !Returns(list[n], s, d)
  }

  function Ended(s: TenureSpan, e: SuccessionEvent): TenureSpan {
    s.(validTo := Some(e.effectiveDate), isActive := false, endBasis := e.basis)
  }

  /** The rest of `s`, from the first return on, as a tenure of its own. */
  ghost predicate IsRest(tail: TenureSpan, list: seq<TenureSpan>, s: TenureSpan, d: Date) {
    exists n: nat :: FirstReturn(list, n, s, d)
                && tail == s.(startBiennium := BienniumOf(list[n].validFrom), validFrom := list[n].validFrom, startBasis := Derived)
  }

  // ----- One turn

  lemma {:induction false} ReturnIsFirst(list: seq<TenureSpan>, s: TenureSpan, d: Date)
    ensures ReEntryAfter(list, s, d).None? <==> GoneForGood(list, s, d)
    ensures ReEntryAfter(list, s, d).Some? ==> exists n: nat :: FirstReturn(list, n, s, d) && list[n] == ReEntryAfter(list, s, d).value
    decreases |list|
  {
    if list != [] {
      IsReEntryMeans(list[0], s, d);
      hide IsReEntry, Returns;
      ReturnIsFirst(list[1..], s, d);
      if Returns(list[0], s, d) {
        assert FirstReturn(list, 0, s, d);
      } else if ReEntryAfter(list, s, d).Some? {
        var n: nat :| FirstReturn(list[1..], n, s, d) && list[1..][n] == ReEntryAfter(list, s, d).value;
        ReturnLater(list, n, s, d);
      } else {
        forall n | 0 <= n < |list| ensures !Returns(list[n], s, d) {
          if n > 0 { assert list[1..][n - 1] == list[n]; }
        }
      }
    }
  }

  lemma IsReEntryMeans(o: TenureSpan, s: TenureSpan, d: Date)
    ensures IsReEntry(o, s, d) <==> Returns(o, s, d)
  {
  }

  lemma ReturnLater(list: seq<TenureSpan>, n: nat, s: TenureSpan, d: Date)
    requires list != [] && !Returns(list[0], s, d) && FirstReturn(list[1..], n, s, d)
    ensures FirstReturn(list, n + 1, s, d) && list[n + 1] == list[1..][n]
  {
    hide Returns;
    forall m | 0 <= m < n + 1 ensures !Returns(list[m], s, d) {
      if m > 0 { assert list[1..][m - 1] == list[m]; }
    }
  }

  lemma OneFirstReturn(list: seq<TenureSpan>, s: TenureSpan, d: Date, m: nat, n: nat)
    requires FirstReturn(list, m, s, d) && FirstReturn(list, n, s, d)
    ensures m == n
  {
    hide Returns;
    if m < n { assert false; }
    if n < m { assert false; }
  }

  /** One turn of a departure's sweep, over the list as it then stands and the context. A
      tenure departed from ends on the day for good, when nothing brings the member back;
      or ends and goes on as a tenure of its own from the first return, when that is in
      another biennium; or is left whole, when the first return is in its own. */
  lemma TurnDecides(spans: seq<TenureSpan>, i: nat, e: SuccessionEvent, seated: map<SourceKey, Date>, context: seq<TenureSpan>)
    requires i < |spans|
    ensures var s, v, list := spans[i], SweptAt(spans, i, e, seated, context), spans + context;
            && (!Departing(s, e, seated) ==> v == spans)
            && (Departing(s, e, seated) ==>
                  && (GoneForGood(list, s, e.effectiveDate) <==> v == spans[i := Ended(s, e)])
                  && (GoesOnWhole(list, s, e.effectiveDate) <==> v == spans)
                  && (GoesOnApart(list, s, e.effectiveDate) <==> |v| == |spans| + 1)
                  && (|v| == |spans| + 1 ==> IsRest(v[|spans|], list, s, e.effectiveDate) && v == spans[i := Ended(s, e)] + [v[|spans|]]))
  {
    var s, d, list := spans[i], e.effectiveDate, spans + context;
    DepartingMeans(s, e, seated);
    if Departing(s, e, seated) {
      EndedMeans(s, e, seated);
      ReturnIsFirst(list, s, d);
      hide Departing, IsOpenThrough, SeatedAtThisInstant, Close, Ended, ReEntryAfter, Returns, BienniumOf;
      if !GoneForGood(list, s, d) {
        var n: nat :| FirstReturn(list, n, s, d) && list[n] == ReEntryAfter(list, s, d).value;
        FirstDecides(list, s, d, n);
        hide FirstReturn;
        assert spans[i := Ended(s, e)] != spans;
        if BienniumOf(list[n].validFrom) != s.startBiennium {
          RestIs(list, s, d, n);
        }
      }
      NoReturnNoRest(list, s, d);
      assert spans[i := Ended(s, e)][i] == Ended(s, e);
    }
  }

  lemma DepartingMeans(s: TenureSpan, e: SuccessionEvent, seated: map<SourceKey, Date>)
    ensures Departing(s, e, seated)
       <==> s.memberId == e.memberId && IsOpenThrough(s, e.effectiveDate) && !SeatedAtThisInstant(seated, s, e.effectiveDate)
  {
  }

  lemma EndedMeans(s: TenureSpan, e: SuccessionEvent, seated: map<SourceKey, Date>)
    requires Departing(s, e, seated)
    ensures Close(s, e) == Ended(s, e) != s
  {
  }

  lemma FirstDecides(list: seq<TenureSpan>, s: TenureSpan, d: Date, n: nat)
    requires FirstReturn(list, n, s, d)
    ensures GoesOnApart(list, s, d) <==> BienniumOf(list[n].validFrom) != s.startBiennium
    ensures GoesOnWhole(list, s, d) <==> BienniumOf(list[n].validFrom) == s.startBiennium
    ensures !GoneForGood(list, s, d)
  {
    forall m: nat | FirstReturn(list, m, s, d) ensures m == n { OneFirstReturn(list, s, d, m, n); }
    hide BienniumOf, Returns;
  }

  lemma NoReturnNoRest(list: seq<TenureSpan>, s: TenureSpan, d: Date)
    ensures GoneForGood(list, s, d) ==> !GoesOnApart(list, s, d) && !GoesOnWhole(list, s, d)
  {
    hide Returns, BienniumOf;
  }

  lemma RestIs(list: seq<TenureSpan>, s: TenureSpan, d: Date, n: nat)
    requires FirstReturn(list, n, s, d) && SplitTail(s, list[n].validFrom).Some?
    ensures IsRest(SplitTail(s, list[n].validFrom).value, list, s, d)
  {
    hide FirstReturn, BienniumOf;
  }

  /** Exactly one of the three. */
  lemma OneWayOrAnother(list: seq<TenureSpan>, s: TenureSpan, d: Date)
    ensures GoneForGood(list, s, d) || GoesOnWhole(list, s, d) || GoesOnApart(list, s, d)
    ensures GoesOnApart(list, s, d) ==> !GoesOnWhole(list, s, d)
    ensures GoneForGood(list, s, d) ==> !GoesOnApart(list, s, d) && !GoesOnWhole(list, s, d)
  {
    hide Returns, BienniumOf;
    NoReturnNoRest(list, s, d);
    ReturnIsFirst(list, s, d);
    if !GoneForGood(list, s, d) {
      var n: nat :| FirstReturn(list, n, s, d);
      FirstDecides(list, s, d, n);
    }
  }

  // ----- The whole sweep

  /** A turn touches its own position and the end of the list. */
  lemma {:induction false} TurnsKeep(spans: seq<TenureSpan>, k: nat, l: nat, e: SuccessionEvent, seated: map<SourceKey, Date>, context: seq<TenureSpan>)
    requires k <= l <= |spans|
    ensures var u, v := Swept(spans, k, e, seated, context), Swept(spans, l, e, seated, context);
            |u| <= |v| && forall j :: 0 <= j < |u| && (j < k || l <= j) ==> v[j] == u[j]
    decreases l
  {
    hide SweptAt;
    if k < l {
      TurnsKeep(spans, k, l - 1, e, seated, context);
      SweptAtOnward(Swept(spans, l - 1, e, seated, context), l - 1, e, seated, context);
    }
  }

  lemma TurnAt(spans: seq<TenureSpan>, i: nat, e: SuccessionEvent, seated: map<SourceKey, Date>, context: seq<TenureSpan>)
    requires i < |spans|
    ensures var u := Swept(spans, i, e, seated, context);
            |u| >= |spans| && u[i] == spans[i] && Swept(spans, i + 1, e, seated, context) == SweptAt(u, i, e, seated, context)
  {
    SweptOnward(spans, i, e, seated, context);
    hide SweptAt;
  }

  /** What a departure makes of each tenure there was: it ends on the day unless the first
      return, over the list as it stands at its turn and the context, is in the biennium it
      is keyed on; one tail is appended exactly when that return is in another; and later
      turns undo neither. */
  lemma SweepDecides(spans: seq<TenureSpan>, i: nat, e: SuccessionEvent, seated: map<SourceKey, Date>, context: seq<TenureSpan>)
    requires i < |spans|
    ensures var s, d, u, v := spans[i], e.effectiveDate, Swept(spans, i, e, seated, context), Swept(spans, |spans|, e, seated, context);
            var list := u + context;
            && |u| <= |v|
            && v[i] == (if Departing(s, e, seated) && !GoesOnWhole(list, s, d) then Ended(s, e) else s)
            && |Swept(spans, i + 1, e, seated, context)| == |u| + (if Departing(s, e, seated) && GoesOnApart(list, s, d) then 1 else 0)
            && (Departing(s, e, seated) && GoesOnApart(list, s, d) ==> |u| < |v| && IsRest(v[|u|], list, s, d))
  {
    hide Departing, GoneForGood, GoesOnApart, GoesOnWhole, IsRest, SweptAt, Ended, Swept;
    TurnAt(spans, i, e, seated, context);
    var s, u := spans[i], Swept(spans, i, e, seated, context);
    var next := Swept(spans, i + 1, e, seated, context);
    OneWayOrAnother(u + context, s, e.effectiveDate);
    TurnDecides(u, i, e, seated, context);
    TurnsKeep(spans, i + 1, |spans|, e, seated, context);
    assert next[i] == if Departing(s, e, seated) && !GoesOnWhole(u + context, s, e.effectiveDate) then Ended(s, e) else s;
  }

  // ----- A seating on the day spares

  /** A tenure dated to the departure's very day is not the one departed from. */
  lemma SeatedThatDayIsSpared(st: State, e: SuccessionEvent, context: seq<TenureSpan>, i: nat)
    requires i < |st.spans| && st.spans[i].SourceKey() in st.seated && st.seated[st.spans[i].SourceKey()] == e.effectiveDate
    ensures |st.spans| <= |AfterDeparture(st, e, context).spans| && AfterDeparture(st, e, context).spans[i] == st.spans[i]
  {
    SweepDecides(st.spans, i, e, st.seated, context);
    hide Swept, GoesOnWhole, GoesOnApart, IsRest;
  }

  /** Whatever comes between, a departure on the day of a seating touches no tenure of the
      id the seating dated or minted, unless a mint under that id came in between. */
  lemma AppointeeIsSpared(st: State, seating: SuccessionEvent, between: seq<SuccessionEvent>, e: SuccessionEvent, g: Setting, i: nat, j: nat)
    requires seating.kind == Seated && Owned(seating, g.owned) && e.kind == Departed && e.effectiveDate == seating.effectiveDate
    requires var next := AfterEvent(st, seating, g);
             && i < |next.spans| && (i < |st.spans| ==> Dates(st, seating, i))
             && !MintedOver(next, between, g, next.spans[i].SourceKey())
             && var end := AfterEvents(next, between, g);
                j < |end.spans| && end.spans[j].SourceKey() == next.spans[i].SourceKey()
    ensures var end := AfterEvents(AfterEvent(st, seating, g), between, g);
            var after := AfterEvent(end, e, g);
            |end.spans| <= |after.spans| && after.spans[j] == end.spans[j]
  {
    var next := AfterEvent(st, seating, g);
    SeatingIsRemembered(st, seating, g.current, i);
    hide AfterEvents, MintedOver, AfterSeating;
    SeatedOncePerTenure(next, between, g, next.spans[i].SourceKey());
    SeatedThatDayIsSpared(AfterEvents(next, between, g), e, g.context, j);
  }

  /** What a seating dates or mints, it remembers under its day. */
  lemma SeatingIsRemembered(st: State, seating: SuccessionEvent, current: Biennium, i: nat)
    requires i < |AfterSeating(st, seating, current).spans| && (i < |st.spans| ==> Dates(st, seating, i))
    ensures var next := AfterSeating(st, seating, current);
            var key := next.spans[i].SourceKey();
            key in next.seated && next.seated[key] == seating.effectiveDate
  {
    AfterSeatingIs(st, seating, current);
    hide AfterSeating, MintsTenure, Starting;
    if i < |st.spans| {
      assert DatesKey(st, seating, st.spans[i].SourceKey());
    }
  }

  // ----- The events that speak of a seat

  predicate SpeaksOfOwnSeat(e: SuccessionEvent, g: Setting) {
    e.kind != Departed && e.seatKind.Some? && e.seatKind.value in g.owned
  }

  /** A vacancy of a seat of ours ends, on its day, exactly the member's tenures of the seat
      that hold the day; of other seats it changes nothing. */
  lemma VacancyEnds(st: State, e: SuccessionEvent, g: Setting, i: nat, x: Date)
    requires e.kind == Vacated && i < |st.spans|
    ensures var s, next := st.spans[i], AfterEvent(st, e, g);
            var ends := SpeaksOfOwnSeat(e, g) && HeldOnTheDay(s, e);
            && next.seated == st.seated && |next.spans| == |st.spans|
            && next.spans[i] == (if ends then Ended(s, e) else s)
            && (next.spans[i].Covers(x) <==> s.Covers(x) && (ends ==> x <= e.effectiveDate))
  {
    SpelledOut(st.spans[i], e);
    hide BienniumOf, OpensAfterSeating, OpensNextBiennium, MatchesSeat;
  }

  /** A seating has its outcome in a seat of ours, and none in any other. */
  lemma SeatingSpeaks(st: State, e: SuccessionEvent, g: Setting)
    requires e.kind == Seated
    ensures if SpeaksOfOwnSeat(e, g) then SeatingOutcome(st, e, g.current, AfterEvent(st, e, g)) else AfterEvent(st, e, g) == st
  {
    AfterSeatingIs(st, e, g.current);
    hide AfterSeating, SeatingOutcome;
  }

  /** A departure speaks of the member whatever the seat. */
  lemma DepartureSpeaks(st: State, e: SuccessionEvent, g: Setting)
    requires e.kind == Departed
    ensures AfterEvent(st, e, g) == State(Swept(st.spans, |st.spans|, e, st.seated, g.context), st.seated)
  {
  }
}
