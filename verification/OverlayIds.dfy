/** When the overlay keeps ids distinct: exactly when no mint and no split tail takes an id
    that is held already, and what in the input rules that out. */
module OverlayIds {
  import opened Ordering
  import opened Terms
  import opened Tenure
  import opened TenureBuilder
  import opened PartyContinuity
  import opened PartyMergeLaws
  import opened OperatorOverlay
  import opened SeatingLaws
  import opened OverlayLaws
  import opened OverlayDepartures

  // ----- The exact condition

  /** The sweep's turn at `k` splits, and the tail's id is held. */
  ghost predicate TailTaken(spans: seq<TenureSpan>, k: nat, e: SuccessionEvent, seated: map<SourceKey, Date>, context: seq<TenureSpan>)
    requires k < |spans|
  {
    var next := SweptAt(spans, k, e, seated, context);
    |next| > |spans| && KeyAmong(spans, next[|spans|].SourceKey())
  }

  ghost predicate TurnTakesId(st: State, e: SuccessionEvent, g: Setting, k: nat)
    requires k < |st.spans|
  {
    TailTaken(Swept(st.spans, k, e, st.seated, g.context), k, e, st.seated, g.context)
  }

  /** The event adds a tenure under an id that is held. */
  ghost predicate TakesHeldId(st: State, e: SuccessionEvent, g: Setting) {
    match e.kind
    case Departed => exists k :: 0 <= k < |st.spans| && TurnTakesId(st, e, g, k)
    case Vacated => false
    case Seated => Owned(e, g.owned) && MintsTenure(st, e, g.current) && KeyAmong(st.spans, MintKey(e, g.current))
  }

  ghost predicate NoneTaken(st: State, events: seq<SuccessionEvent>, g: Setting)
    decreases |events|
  {
    events == [] || (!TakesHeldId(st, events[0], g) && NoneTaken(AfterEvent(st, events[0], g), events[1..], g))
  }

  ghost predicate SameKeys(u: seq<TenureSpan>, v: seq<TenureSpan>) {
    |u| <= |v| && forall i :: 0 <= i < |u| ==> v[i].SourceKey() == u[i].SourceKey()
  }

  lemma SameNumberSameIds(u: seq<TenureSpan>, v: seq<TenureSpan>)
    requires SameKeys(u, v) && |v| == |u|
    ensures DistinctSources(v) <==> DistinctSources(u)
  {
    hide TenureSpan.SourceKey;
  }

  lemma OneMoreId(u: seq<TenureSpan>, v: seq<TenureSpan>)
    requires SameKeys(u, v) && |v| == |u| + 1
    ensures DistinctSources(v) <==> DistinctSources(u) && !KeyAmong(u, v[|u|].SourceKey())
  {
    hide TenureSpan.SourceKey;
    var key := v[|u|].SourceKey();
    if DistinctSources(v) {
      forall j | 0 <= j < |u| ensures u[j].SourceKey() != key { assert v[j].SourceKey() != v[|u|].SourceKey(); }
    }
    if DistinctSources(u) && !KeyAmong(u, key) {
      forall i, j | 0 <= i < j < |v| ensures v[i].SourceKey() != v[j].SourceKey() {
        if j == |u| { assert u[i].SourceKey() == v[i].SourceKey(); }
      }
    }
  }

  lemma TurnKeepsDistinct(spans: seq<TenureSpan>, k: nat, e: SuccessionEvent, seated: map<SourceKey, Date>, context: seq<TenureSpan>)
    requires k < |spans|
    ensures DistinctSources(SweptAt(spans, k, e, seated, context)) <==> DistinctSources(spans) && !TailTaken(spans, k, e, seated, context)
  {
    SweptAtOnward(spans, k, e, seated, context);
    hide SweptAt, DistinctSources, KeyAmong, TenureSpan.SourceKey;
    var next := SweptAt(spans, k, e, seated, context);
    if |next| == |spans| { SameNumberSameIds(spans, next); } else { OneMoreId(spans, next); }
  }

  lemma {:induction false} SweepKeepsDistinct(st: State, e: SuccessionEvent, g: Setting, k: nat)
    requires k <= |st.spans|
    ensures DistinctSources(Swept(st.spans, k, e, st.seated, g.context))
       <==> DistinctSources(st.spans) && forall j :: 0 <= j < k ==> !TurnTakesId(st, e, g, j)
  {
    hide SweptAt, DistinctSources, TailTaken;
    if k > 0 {
      SweepKeepsDistinct(st, e, g, k - 1);
      TurnKeepsDistinct(Swept(st.spans, k - 1, e, st.seated, g.context), k - 1, e, st.seated, g.context);
      assert TurnTakesId(st, e, g, k - 1) <==> TailTaken(Swept(st.spans, k - 1, e, st.seated, g.context), k - 1, e, st.seated, g.context);
    }
  }

  lemma SeatingKeepsDistinct(st: State, e: SuccessionEvent, current: Biennium)
    ensures DistinctSources(AfterSeating(st, e, current).spans)
       <==> DistinctSources(st.spans) && !(MintsTenure(st, e, current) && KeyAmong(st.spans, MintKey(e, current)))
  {
    AfterSeatingIs(st, e, current);
    SeatingKeys(st, e, current, AfterSeating(st, e, current));
    hide AfterSeating, SeatingOutcome, MintsTenure, DistinctSources, KeyAmong;
    var next := AfterSeating(st, e, current).spans;
    if |next| == |st.spans| { SameNumberSameIds(st.spans, next); } else { OneMoreId(st.spans, next); }
  }

  lemma SeatingKeys(st: State, e: SuccessionEvent, current: Biennium, next: State)
    requires SeatingOutcome(st, e, current, next)
    ensures SameKeys(st.spans, next.spans)
    ensures |next.spans| == |st.spans| + (if MintsTenure(st, e, current) then 1 else 0)
    ensures MintsTenure(st, e, current) ==> next.spans[|st.spans|].SourceKey() == MintKey(e, current)
  {
    hide MintsTenure, Dates, DatesKey;
  }

  lemma EventKeepsDistinct(st: State, e: SuccessionEvent, g: Setting)
    ensures DistinctSources(AfterEvent(st, e, g).spans) <==> DistinctSources(st.spans) && !TakesHeldId(st, e, g)
  {
    match e.kind
    case Departed =>
      hide DistinctSources, TurnTakesId;
      SweepKeepsDistinct(st, e, g, |st.spans|);
    case Vacated =>
      hide MatchesSeat;
      if Owned(e, g.owned) { SameNumberSameIds(st.spans, AfterVacancy(st, e).spans); }
    case Seated =>
      hide DistinctSources, AfterSeating, MintsTenure, KeyAmong;
      SeatingKeepsDistinct(st, e, g.current);
  }

  lemma {:induction false} EventsKeepDistinct(st: State, events: seq<SuccessionEvent>, g: Setting)
    ensures DistinctSources(AfterEvents(st, events, g).spans) <==> DistinctSources(st.spans) && NoneTaken(st, events, g)
    decreases |events|
  {
    hide DistinctSources, AfterEvent, TakesHeldId;
    if events != [] {
      EventKeepsDistinct(st, events[0], g);
      EventsKeepDistinct(AfterEvent(st, events[0], g), events[1..], g);
    }
  }

  /** Mints of the pre-pass keep ids distinct by themselves. */
  lemma {:induction false} MintsAreNew(spans: seq<TenureSpan>, keys: set<string>, events: seq<SuccessionEvent>, g: Setting, minted: seq<TenureSpan>)
    requires GoodMints(minted, keys, events, g) && forall i :: 0 <= i < |spans| ==> spans[i].SourceId() in keys
    ensures DistinctSources(spans + minted) <==> DistinctSources(spans)
  {
    var all := spans + minted;
    assert forall i :: 0 <= i < |spans| ==> all[i] == spans[i];
    assert forall i :: 0 <= i < |minted| ==> all[|spans| + i] == minted[i];
    if DistinctSources(spans) {
      forall i, j | 0 <= i < j < |all| ensures all[i].SourceKey() != all[j].SourceKey() {
        if j >= |spans| {
          assert all[j] == minted[j - |spans|];
          if i >= |spans| { assert all[i] == minted[i - |spans|]; } else { assert all[i] == spans[i]; }
          SameKeySameId(all[i], all[j]);
        }
      }
    }
  }

  lemma SameKeySameId(s: TenureSpan, t: TenureSpan)
    ensures s.SourceKey() == t.SourceKey() ==> s.SourceId() == t.SourceId()
  {
  }

  function Start(spans: seq<TenureSpan>, events: seq<SuccessionEvent>, g: Setting): State {
    State(spans + MoverTenures(spans, events, g), map[])
  }

  /** The overlay's ids are distinct exactly when they came in distinct and no event, as its
      turn comes, seats a tenure or splits one off under an id that is held. */
  lemma IdsStayDistinctExactly(spans: seq<TenureSpan>, events: seq<SuccessionEvent>, g: Setting)
    ensures DistinctSources(Overlaid(spans, events, g).spans)
       <==> DistinctSources(spans) && NoneTaken(Start(spans, events, g), InOrder(events), g)
  {
    hide Minted, InOrder, AfterEvents, NoneTaken, DistinctSources, GoodMints;
    MintsOnlyForMovers(spans, events, g);
    MintsAreNew(spans, SourceIds(spans), InOrder(events), g, MoverTenures(spans, events, g));
    EventsKeepDistinct(Start(spans, events, g), InOrder(events), g);
  }

  // ----- An input that fails

  const REAPPOINTED: TenureSpan := TenureSpan("m", KIND_SENATE, "ld-1", 1, 1, 1, None, true, Tenure.Observed, Open, Principal, None, None)
  const RESIGNS: SuccessionEvent := SuccessionEvent("m", Vacated, 100, Some(KIND_SENATE), Some("ld-1"), Dated)
  const RETURNS: SuccessionEvent := SuccessionEvent("m", Seated, 200, Some(KIND_SENATE), Some("ld-1"), Dated)

  function ReappointedSetting(): Setting { Setting(1, {KIND_SENATE}, map[], []) }

  lemma EarlyDays()
    ensures BienniumOf(100) == 1 && BienniumOf(200) == 1 && BienniumOf(1) == 1 && BienniumStart(1) == 1
    ensures InBiennium(200, 1)
  {
    YearUnique(1, 1);
    YearUnique(100, 1);
    YearUnique(200, 1);
  }

  /** Vacated and seated again in one biennium: the seating finds no tenure to date, mints
      one keyed in the current biennium, and the id is the vacated tenure's own. */
  lemma ReappointmentTakesHeldId()
    ensures REAPPOINTED.Sound() && DistinctSources([REAPPOINTED])
    ensures !DistinctSources(Overlaid([REAPPOINTED], [RESIGNS, RETURNS], ReappointedSetting()).spans)
  {
    EarlyDays();
    var g, events := ReappointedSetting(), [RESIGNS, RETURNS];
    var st := State([REAPPOINTED], map[]);
    InOrderAlready();
    NoMovers();
    var gone := AfterEvent(st, RESIGNS, g);
    VacatedFirst();
    SeatedMints(gone);
    hide AfterEvent, TakesHeldId, BienniumOf, InOrder, Minted, DistinctSources;
    assert events[1..] == [RETURNS] && events[0] == RESIGNS;
    assert !NoneTaken(gone, [RETURNS], g);
    assert !NoneTaken(st, events, g);
    IdsStayDistinctExactly([REAPPOINTED], events, g);
  }

  lemma InOrderAlready()
    ensures InOrder([RESIGNS, RETURNS]) == [RESIGNS, RETURNS]
  {
    var a, b := EventOrder(RESIGNS), EventOrder(RETURNS);
    assert a == [Num(0), Num(100)] && b == [Num(0), Num(200)];
    assert KeyLe(a[1..], b[1..]);
    var s := [RESIGNS, RETURNS];
    assert s[1..] == [RETURNS] && s[1..][1..] == [];
    assert SortBy(s[1..], EventOrder) == [RETURNS];
  }

  lemma NoMovers()
    ensures Start([REAPPOINTED], [RESIGNS, RETURNS], ReappointedSetting()) == State([REAPPOINTED], map[])
  {
    InOrderAlready();
    hide InOrder;
    var events, g := [RESIGNS, RETURNS], ReappointedSetting();
    var keys := SourceIds([REAPPOINTED]);
    assert events[1..] == [RETURNS] && events[1..][1..] == [];
    assert !Mints([REAPPOINTED], keys, RESIGNS, g) && !Mints([REAPPOINTED], keys, RETURNS, g);
    hide Mints;
    assert Minted([REAPPOINTED], keys, events[1..], g) == [];
    assert [REAPPOINTED] + [] == [REAPPOINTED];
  }

  lemma VacatedFirst()
    ensures AfterEvent(State([REAPPOINTED], map[]), RESIGNS, ReappointedSetting()) == State([Close(REAPPOINTED, RESIGNS)], map[])
  {
  }

  lemma SeatedMints(gone: State)
    requires gone == State([Close(REAPPOINTED, RESIGNS)], map[])
    ensures TakesHeldId(gone, RETURNS, ReappointedSetting())
  {
    EarlyDays();
    var s := Close(REAPPOINTED, RESIGNS);
    assert !MatchesSeat(s, RETURNS) && !OpensAfterSeating(s, RETURNS);
    assert MintKey(RETURNS, 1) == s.SourceKey();
    hide BienniumOf, InBiennium;
    assert MintsTenure(gone, RETURNS, 1);
    assert gone.spans[0].SourceKey() == MintKey(RETURNS, 1);
  }
}
