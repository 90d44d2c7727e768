/** What a seating does: which tenure it dates, what it remembers, and when it mints one. */
module SeatingLaws {
  import opened Ordering
  import opened Terms
  import opened Tenure
  import opened OperatorOverlay

  /** A tenure of the event's member in the event's seat. */
  predicate OfItsSeat(s: TenureSpan, e: SuccessionEvent) {
    s.memberId == e.memberId && e.seatKind == Some(s.kind) && e.seatDiscriminator == Some(s.discriminator)
  }

  /** And the day of the event falls in it. */
  predicate HeldOnTheDay(s: TenureSpan, e: SuccessionEvent) {
    OfItsSeat(s, e) && s.validFrom <= e.effectiveDate <= s.EndOrOpen()
  }

  /** Or it opens on the first day of its biennium, the one after the day's. */
  predicate OpensNextBiennium(s: TenureSpan, e: SuccessionEvent) {
    OfItsSeat(s, e) && s.validFrom == BienniumStart(s.startBiennium) && s.startBiennium == BienniumOf(e.effectiveDate) + 2
  }

  lemma SpelledOut(s: TenureSpan, e: SuccessionEvent)
    ensures MatchesSeat(s, e) <==> HeldOnTheDay(s, e)
    ensures OpensAfterSeating(s, e) <==> OpensNextBiennium(s, e)
    ensures SeatingStartsTenure(s, e.effectiveDate) <==> BienniumOf(e.effectiveDate) <= s.startBiennium
  {
    hide BienniumOf, BienniumStart;
  }

  /** Some span's window holds the seating. */
  ghost predicate AnyMatches(spans: seq<TenureSpan>, e: SuccessionEvent) {
    exists j :: 0 <= j < |spans| && HeldOnTheDay(spans[j], e)
  }

  /** The seating speaks of the spans of its seat whose window holds it; if there is none, of
      those that open a biennium after it. */
  ghost predicate Targeted(spans: seq<TenureSpan>, e: SuccessionEvent, i: nat)
    requires i < |spans|
  {
    if AnyMatches(spans, e) then HeldOnTheDay(spans[i], e) else OpensNextBiennium(spans[i], e)
  }

  /** And it starts the tenure, not merely falls inside it. */
  ghost predicate Starting(spans: seq<TenureSpan>, e: SuccessionEvent, i: nat)
    requires i < |spans|
  {
    Targeted(spans, e, i) && BienniumOf(e.effectiveDate) <= spans[i].startBiennium
  }

  /** The tenure takes the seating's date: nothing dated it before, and it is the first of
      its id. */
  ghost predicate Dates(st: State, e: SuccessionEvent, i: nat)
    requires i < |st.spans|
  {
    && Starting(st.spans, e, i)
    && st.spans[i].SourceKey() !in st.seated
    && forall j :: 0 <= j < i && Starting(st.spans, e, j) ==> st.spans[j].SourceKey() != st.spans[i].SourceKey()
  }

  /** No tenure starts with the seating, and it falls in the current biennium. */
  ghost predicate MintsTenure(st: State, e: SuccessionEvent, current: Biennium) {
    InBiennium(e.effectiveDate, current) && forall i :: 0 <= i < |st.spans| ==> !Starting(st.spans, e, i)
  }

  /** An open tenure of the member in the seat, from the seating on, keyed in `current`. */
  predicate IsMint(s: TenureSpan, e: SuccessionEvent, current: Biennium) {
    && s.memberId == e.memberId && s.kind == OrEmpty(e.seatKind) && s.discriminator == OrEmpty(e.seatDiscriminator)
    && s.startBiennium == s.endBiennium == current
    && s.validFrom == e.effectiveDate && s.startBasis == e.basis && s.validTo.None? && s.isActive && s.endBasis == Open
    && s.membership == Principal && s.Windowless()
  }

  function MintKey(e: SuccessionEvent, current: Biennium): SourceKey {
    (e.memberId, OrEmpty(e.seatKind), OrEmpty(e.seatDiscriminator), current)
  }

  ghost predicate DatesKey(st: State, e: SuccessionEvent, key: SourceKey) {
    exists i :: 0 <= i < |st.spans| && Dates(st, e, i) && st.spans[i].SourceKey() == key
  }

  /** Exactly the tenures the seating starts and nothing dated before take its date, nothing
      else of any span moves, a tenure is minted exactly when none starts, and what was
      remembered stays, except that a mint under an id already dated replaces its date. */
  ghost predicate SeatingOutcome(st: State, e: SuccessionEvent, current: Biennium, next: State) {
    var mint := MintsTenure(st, e, current);
    && |next.spans| == |st.spans| + (if mint then 1 else 0)
    && (forall i :: 0 <= i < |st.spans| ==>
          next.spans[i] == if Dates(st, e, i) then st.spans[i].(validFrom := e.effectiveDate, startBasis := e.basis) else st.spans[i])
    && (mint ==> IsMint(next.spans[|st.spans|], e, current))
    && (forall key :: key in next.seated <==> key in st.seated || DatesKey(st, e, key) || (mint && key == MintKey(e, current)))
    && (forall key :: key in next.seated ==>
          next.seated[key] == if key in st.seated && !(mint && key == MintKey(e, current)) then st.seated[key] else e.effectiveDate)
  }

  // ----- The targets

  ghost predicate Rising(s: seq<nat>) {
    forall i, j :: 0 <= i < j < |s| ==> s[i] < s[j]
  }

  lemma {:induction false} FilterRises(s: seq<nat>, p: nat -> bool)
    requires Rising(s)
    ensures Rising(Filter<nat>(s, p))
  {
    if s != [] {
      FilterRises(s[1..], p);
      var rest := Filter<nat>(s[1..], p);
      forall k | 0 <= k < |rest| ensures s[0] < rest[k] { FilterMember<nat>(s[1..], p, rest[k]); }
    }
  }

  lemma TargetsSay(spans: seq<TenureSpan>, e: SuccessionEvent)
    ensures Rising(Targets(spans, e))
    ensures forall i: nat :: i in Targets(spans, e) <==> i < |spans| && Targeted(spans, e, i)
  {
    forall i | 0 <= i < |spans|
      ensures MatchesSeat(spans[i], e) <==> HeldOnTheDay(spans[i], e)
      ensures OpensAfterSeating(spans[i], e) <==> OpensNextBiennium(spans[i], e)
    {
      SpelledOut(spans[i], e);
    }
    hide MatchesSeat, OpensAfterSeating, HeldOnTheDay, OpensNextBiennium, Filter;
    TargetsAre(spans, e);
    FilterRises(Indices(|spans|), (i: nat) => i < |spans| && Matching(e)(spans[i]));
    FilterRises(Indices(|spans|), (i: nat) => i < |spans| && Opening(e)(spans[i]));
    RisingPositions(spans, Matching(e));
    RisingPositions(spans, Opening(e));
    hide Positions;
    forall i: nat ensures i in Positions(spans, Matching(e)) <==> i < |spans| && MatchesSeat(spans[i], e) { PositionsAre(spans, Matching(e), i); }
    forall i: nat ensures i in Positions(spans, Opening(e)) <==> i < |spans| && OpensAfterSeating(spans[i], e) { PositionsAre(spans, Opening(e), i); }
    if Positions(spans, Matching(e)) != [] { assert Positions(spans, Matching(e))[0] in Positions(spans, Matching(e)); }
    if AnyMatches(spans, e) {
      var j: nat :| j < |spans| && MatchesSeat(spans[j], e);
      assert j in Positions(spans, Matching(e));
    }
  }

  lemma RisingPositions(spans: seq<TenureSpan>, group: TenureSpan -> bool)
    ensures Rising(Positions(spans, group))
  {
    hide Filter;
    FilterRises(Indices(|spans|), (i: nat) => i < |spans| && group(spans[i]));
  }

  // ----- One target after another

  /** The targets looked at so far have been dated, as the outcome says, and no others. */
  ghost predicate PartDated(st: State, e: SuccessionEvent, done: seq<nat>, now: State) {
    && |now.spans| == |st.spans|
    && (forall i :: 0 <= i < |st.spans| ==>
          now.spans[i] == if i in done && Dates(st, e, i) then st.spans[i].(validFrom := e.effectiveDate, startBasis := e.basis) else st.spans[i])
    && (forall key :: key in now.seated <==> key in st.seated || DatesAmong(st, e, done, key))
    && (forall key :: key in now.seated ==> now.seated[key] == if key in st.seated then st.seated[key] else e.effectiveDate)
  }

  ghost predicate DatesAmong(st: State, e: SuccessionEvent, done: seq<nat>, key: SourceKey) {
    exists i :: 0 <= i < |st.spans| && i in done && Dates(st, e, i) && st.spans[i].SourceKey() == key
  }

  /** Of the tenures of one id the seating starts, the first is the one it dates. */
  lemma {:induction false} FirstOfItsId(st: State, e: SuccessionEvent, j: nat) returns (i: nat)
    requires j < |st.spans| && Starting(st.spans, e, j) && st.spans[j].SourceKey() !in st.seated
    ensures i <= j && Dates(st, e, i) && st.spans[i].SourceKey() == st.spans[j].SourceKey()
    decreases j
  {
    hide Starting;
    if k :| 0 <= k < j && Starting(st.spans, e, k) && st.spans[k].SourceKey() == st.spans[j].SourceKey() {
      i := FirstOfItsId(st, e, k);
    } else {
      i := j;
    }
  }

  /** What the code asks of a target, by the time it gets there, is what the outcome says. */
  lemma NextDates(st: State, e: SuccessionEvent, targets: seq<nat>, n: nat, now: State)
    requires targets == Targets(st.spans, e) && n < |targets| && PartDated(st, e, targets[..n], now)
    ensures var t := targets[n];
            && t < |st.spans| && now.spans[t] == st.spans[t] && t !in targets[..n]
            && (SeatingStartsTenure(now.spans[t], e.effectiveDate) && now.spans[t].SourceKey() !in now.seated <==> Dates(st, e, t))
  {
    hide Targets, Targeted, SeatingStartsTenure, TenureSpan.SourceKey, BienniumOf, MatchesSeat, OpensAfterSeating;
    TargetsSay(st.spans, e);
    var t, done := targets[n], targets[..n];
    assert t in targets;
    SpelledOut(st.spans[t], e);
    NotYet(targets, n);
    var key := st.spans[t].SourceKey();
    if Starting(st.spans, e, t) && key !in st.seated {
      if DatesAmong(st, e, done, key) {
        var i :| 0 <= i < |st.spans| && i in done && Dates(st, e, i) && st.spans[i].SourceKey() == key;
        EarlierTarget(targets, n, i);
      } else if !Dates(st, e, t) {
        var j :| 0 <= j < t && Starting(st.spans, e, j) && st.spans[j].SourceKey() == key;
        var i := FirstOfItsId(st, e, j);
        assert i in targets;
        LaterTarget(targets, n, i);
        assert false;
      }
    }
  }

  lemma NotYet(targets: seq<nat>, n: nat)
    requires Rising(targets) && n < |targets|
    ensures targets[n] !in targets[..n]
  {
  }

  lemma EarlierTarget(targets: seq<nat>, n: nat, i: nat)
    requires Rising(targets) && n < |targets| && i in targets[..n]
    ensures i < targets[n]
  {
  }

  lemma LaterTarget(targets: seq<nat>, n: nat, i: nat)
    requires Rising(targets) && n < |targets| && i in targets && i < targets[n]
    ensures i in targets[..n]
  {
    var k :| 0 <= k < |targets| && targets[k] == i;
    assert targets[..n][k] == i;
  }

  lemma DatesOneMore(st: State, e: SuccessionEvent, targets: seq<nat>, n: nat, now: State)
    requires targets == Targets(st.spans, e) && n < |targets| && PartDated(st, e, targets[..n], now)
    ensures targets[n] < |now.spans| && PartDated(st, e, targets[..n + 1], SeatedAt(now, targets[n], e))
  {
    NextDates(st, e, targets, n, now);
    hide Targets, Dates, SeatingStartsTenure, PartDated, TenureSpan.SourceKey;
    assert targets[..n + 1] == targets[..n] + [targets[n]];
    TakesTheDate(st, e, targets[..n], targets[n], now);
  }

  lemma TakesTheDate(st: State, e: SuccessionEvent, done: seq<nat>, t: nat, now: State)
    requires PartDated(st, e, done, now) && t < |st.spans| && now.spans[t] == st.spans[t] && t !in done
    requires SeatingStartsTenure(now.spans[t], e.effectiveDate) && now.spans[t].SourceKey() !in now.seated <==> Dates(st, e, t)
    ensures PartDated(st, e, done + [t], SeatedAt(now, t, e))
  {
    hide Dates, SeatingStartsTenure, TenureSpan.SourceKey, DatesAmong;
    var next, more := SeatedAt(now, t, e), done + [t];
    forall key ensures DatesAmong(st, e, more, key) <==> DatesAmong(st, e, done, key) || (Dates(st, e, t) && st.spans[t].SourceKey() == key) {
      OneMoreAmong(st, e, done, t, key);
    }
    forall i | 0 <= i < |st.spans|
      ensures next.spans[i] == if i in more && Dates(st, e, i) then st.spans[i].(validFrom := e.effectiveDate, startBasis := e.basis) else st.spans[i]
    {
      assert i in more <==> i in done || i == t;
    }
  }

  lemma OneMoreAmong(st: State, e: SuccessionEvent, done: seq<nat>, t: nat, key: SourceKey)
    requires t < |st.spans|
    ensures DatesAmong(st, e, done + [t], key) <==> DatesAmong(st, e, done, key) || (Dates(st, e, t) && st.spans[t].SourceKey() == key)
  {
    hide Dates, TenureSpan.SourceKey;
    if i :| 0 <= i < |st.spans| && i in done && Dates(st, e, i) && st.spans[i].SourceKey() == key { assert i in done + [t]; }
    assert t in done + [t];
  }

  lemma NothingDated(st: State, e: SuccessionEvent)
    ensures PartDated(st, e, [], st)
  {
  }

  // ----- The seating

  lemma AllDated(st: State, e: SuccessionEvent, current: Biennium, now: State)
    requires PartDated(st, e, Targets(st.spans, e), now)
    ensures var s := Synthesize(e, current);
            SeatingOutcome(st, e, current,
                           if MintsTenure(st, e, current) then State(now.spans + [s], now.seated[s.SourceKey() := e.effectiveDate]) else now)
  {
    TargetsSay(st.spans, e);
    hide Targets, Targeted, SeatingStartsTenure, InBiennium;
    assert Synthesize(e, current).SourceKey() == MintKey(e, current);
    forall key ensures DatesAmong(st, e, Targets(st.spans, e), key) <==> DatesKey(st, e, key) {
      if i :| 0 <= i < |st.spans| && Dates(st, e, i) && st.spans[i].SourceKey() == key { assert i in Targets(st.spans, e); }
    }
    hide Dates, Starting;
    forall i | 0 <= i < |st.spans| && Dates(st, e, i) ensures i in Targets(st.spans, e) { DatesATarget(st, e, i); }
  }

  lemma DatesATarget(st: State, e: SuccessionEvent, i: nat)
    requires i < |st.spans| && Dates(st, e, i)
    ensures i in Targets(st.spans, e)
  {
    TargetsSay(st.spans, e);
  }

  lemma {:induction false} RestDated(st: State, e: SuccessionEvent, targets: seq<nat>, n: nat, now: State)
    requires targets == Targets(st.spans, e) && n <= |targets| && PartDated(st, e, targets[..n], now)
    requires forall k :: 0 <= k < |targets| ==> targets[k] < |now.spans|
    ensures PartDated(st, e, targets, SeatedAll(now, targets[n..], e))
    decreases |targets| - n
  {
    hide PartDated, Targets;
    if n == |targets| {
      assert targets[..n] == targets && targets[n..] == [];
    } else {
      assert targets[n..][0] == targets[n] && targets[n..][1..] == targets[n + 1..];
      DatesOneMore(st, e, targets, n, now);
      RestDated(st, e, targets, n + 1, SeatedAt(now, targets[n], e));
      hide SeatedAt;
    }
  }

  /** The law of a seating. */
  lemma AfterSeatingIs(st: State, e: SuccessionEvent, current: Biennium)
    ensures SeatingOutcome(st, e, current, AfterSeating(st, e, current))
  {
    hide PartDated, SeatingOutcome, Targets, Synthesize, MintsTenure, SeatedAll, Hits, InBiennium;
    var targets := Targets(st.spans, e);
    NothingDated(st, e);
    assert targets[..0] == [] && targets[0..] == targets;
    RestDated(st, e, targets, 0, st);
    AllDated(st, e, current, SeatedAll(st, targets, e));
    HitOrMint(st, e, current);
  }

  /** The loop over the targets, and the mint when none of them starts with the seating. */
  method Seat(spans: seq<TenureSpan>, seated: map<SourceKey, Date>, e: SuccessionEvent, current: Biennium) returns (st: State)
    ensures SeatingOutcome(State(spans, seated), e, current, st)
    ensures st == AfterSeating(State(spans, seated), e, current)
  {
    hide Targets, Synthesize, SeatingStartsTenure, SeatingOutcome;
    var targets := Targets(spans, e);
    st := State(spans, seated);
    var hit := false;
    assert targets[0..] == targets;
    for k := 0 to |targets|
      invariant |st.spans| == |spans|
      invariant SeatedAll(st, targets[k..], e) == SeatedAll(State(spans, seated), targets, e)
      invariant forall i :: 0 <= i < |spans| ==> st.spans[i].startBiennium == spans[i].startBiennium
      invariant hit <==> exists l :: 0 <= l < k && SeatingStartsTenure(spans[targets[l]], e.effectiveDate)
    {
      assert targets[k..][1..] == targets[k + 1..];
      var i := targets[k];
      var s := st.spans[i];
      SameBiennium(s, spans[i], e.effectiveDate);
      if !SeatingStartsTenure(s, e.effectiveDate) { continue; }
      hit := true;
      if s.SourceKey() in st.seated { continue; }
      st := State(st.spans[i := s.(validFrom := e.effectiveDate, startBasis := e.basis)], st.seated[s.SourceKey() := e.effectiveDate]);
    }
    if !hit {
      if InBiennium(e.effectiveDate, current) {
        var s := Synthesize(e, current);
        st := State(st.spans + [s], st.seated[s.SourceKey() := e.effectiveDate]);
      }
    }
    AfterSeatingIs(State(spans, seated), e, current);
  }

  lemma SameBiennium(s: TenureSpan, t: TenureSpan, d: Date)
    requires s.startBiennium == t.startBiennium
    ensures SeatingStartsTenure(s, d) <==> SeatingStartsTenure(t, d)
  {
  }

  lemma HitOrMint(st: State, e: SuccessionEvent, current: Biennium)
    ensures MintsTenure(st, e, current) <==> InBiennium(e.effectiveDate, current) && !Hits(st.spans, Targets(st.spans, e), e)
  {
    TargetsSay(st.spans, e);
    hide Targets, Targeted, SeatingStartsTenure, InBiennium, BienniumOf;
    var targets := Targets(st.spans, e);
    forall i | 0 <= i < |st.spans| ensures SeatingStartsTenure(st.spans[i], e.effectiveDate) <==> BienniumOf(e.effectiveDate) <= st.spans[i].startBiennium {
      SpelledOut(st.spans[i], e);
    }
    if i: nat :| i < |st.spans| && Starting(st.spans, e, i) {
      assert i in targets;
      var k :| 0 <= k < |targets| && targets[k] == i;
      assert SeatingStartsTenure(st.spans[targets[k]], e.effectiveDate);
    }
    forall k | 0 <= k < |targets| && SeatingStartsTenure(st.spans[targets[k]], e.effectiveDate) ensures Starting(st.spans, e, targets[k]) {
      assert targets[k] in targets;
    }
  }

  // ----- Over a whole run

  /** One of the events mints a tenure under the id. */
  ghost predicate MintedOver(st: State, events: seq<SuccessionEvent>, g: Setting, key: SourceKey)
    decreases |events|
  {
    events != []
    && ((events[0].kind == Seated && Owned(events[0], g.owned) && MintsTenure(st, events[0], g.current) && key == MintKey(events[0], g.current))
        || MintedOver(AfterEvent(st, events[0], g), events[1..], g, key))
  }

  lemma EventKeepsDate(st: State, e: SuccessionEvent, g: Setting, key: SourceKey)
    requires key in st.seated
    ensures key in AfterEvent(st, e, g).seated
    ensures AfterEvent(st, e, g).seated[key] == st.seated[key]
         || (e.kind == Seated && Owned(e, g.owned) && MintsTenure(st, e, g.current) && key == MintKey(e, g.current))
  {
    if e.kind == Seated && Owned(e, g.owned) {
      AfterSeatingIs(st, e, g.current);
    }
    hide AfterSeating, Swept, MatchesSeat, MintsTenure, DatesKey, Dates;
  }

  /** A tenure is dated once: the date remembered for an id stays, whatever events follow,
      unless one of them mints a second tenure under it. */
  lemma {:induction false} SeatedOncePerTenure(st: State, events: seq<SuccessionEvent>, g: Setting, key: SourceKey)
    requires key in st.seated && !MintedOver(st, events, g, key)
    ensures key in AfterEvents(st, events, g).seated && AfterEvents(st, events, g).seated[key] == st.seated[key]
    decreases |events|
  {
    hide AfterEvent, MintsTenure, Owned;
    if events != [] {
      EventKeepsDate(st, events[0], g, key);
      SeatedOncePerTenure(AfterEvent(st, events[0], g), events[1..], g, key);
    }
  }
}
