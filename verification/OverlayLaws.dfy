/** What an overlay run keeps, mints, closes and leaves alone. */
module OverlayLaws {
  import opened Ordering
  import opened Terms
  import opened Tenure
  import opened TenureBuilder
  import opened PartyContinuity
  import opened PartyMergeLaws
  import opened OperatorOverlay
  import opened SeatingLaws

  // ----- Every stage emits sound spans

  /** An event states or derives its date; nothing opens an end with one. */
  predicate EventOk(e: SuccessionEvent) { e.basis != Open }

  ghost predicate EventsOk(events: seq<SuccessionEvent>) {
    forall i :: 0 <= i < |events| ==> EventOk(events[i])
  }

  lemma CloseSound(s: TenureSpan, e: SuccessionEvent)
    requires PlainSpan(s) && EventOk(e)
    ensures PlainSpan(Close(s, e))
  {
  }

  lemma TailSound(s: TenureSpan, d: Date)
    requires PlainSpan(s) && d <= s.EndOrOpen() && SplitTail(s, d).Some?
    ensures PlainSpan(SplitTail(s, d).value)
  {
    hide BienniumOf;
  }

  lemma RedatedSound(s: TenureSpan, e: SuccessionEvent)
    requires PlainSpan(s) && EventOk(e) && SeatingStartsTenure(s, e.effectiveDate)
    requires MatchesSeat(s, e) || OpensAfterSeating(s, e)
    ensures PlainSpan(s.(validFrom := e.effectiveDate, startBasis := e.basis))
  {
    var d := e.effectiveDate;
    if MatchesSeat(s, e) {
      BienniumMonotone(s.validFrom, d);
    } else if s.validFrom < d {
      BienniumMonotone(s.validFrom, d);
      BienniumLength(s.startBiennium);
    }
    hide BienniumOf, BienniumStart;
  }

  lemma SynthesizedSound(e: SuccessionEvent, b: Biennium)
    requires EventOk(e)
    ensures InBiennium(e.effectiveDate, b) ==> PlainSpan(Synthesize(e, b))
    ensures BienniumOf(e.effectiveDate) == b ==> PlainSpan(SynthesizeClosed(e, b))
  {
    BienniumWindow(e.effectiveDate, b);
    BienniumLength(b);
    hide BienniumOf, BienniumStart, BienniumEnd, InBiennium;
  }

  lemma SweptAtPlain(spans: seq<TenureSpan>, i: nat, e: SuccessionEvent, seated: map<SourceKey, Date>, context: seq<TenureSpan>)
    requires i < |spans| && Plain(spans) && EventOk(e)
    ensures Plain(SweptAt(spans, i, e, seated, context))
  {
    var s := spans[i];
    assert PlainSpan(s);
    CloseSound(s, e);
    var reEntry := ReEntryAfter(spans + context, s, e.effectiveDate);
    if reEntry.Some? && SplitTail(s, reEntry.value.validFrom).Some? { TailSound(s, reEntry.value.validFrom); }
    hide PlainSpan, ReEntryAfter, SplitTail, Close;
  }

  lemma {:induction false} SweptPlain(spans: seq<TenureSpan>, k: nat, e: SuccessionEvent, seated: map<SourceKey, Date>, context: seq<TenureSpan>)
    requires k <= |spans| && Plain(spans) && EventOk(e)
    ensures Plain(Swept(spans, k, e, seated, context))
  {
    hide PlainSpan, SweptAt;
    if k > 0 {
      SweptPlain(spans, k - 1, e, seated, context);
      SweptAtPlain(Swept(spans, k - 1, e, seated, context), k - 1, e, seated, context);
    }
  }

  /** The targets still speak of the event: a target redated by it does no more. */
  ghost predicate TargetsOk(st: State, targets: seq<nat>, e: SuccessionEvent) {
    && (forall k :: 0 <= k < |targets| ==> targets[k] < |st.spans|)
    && (forall k :: 0 <= k < |targets| ==>
          var s := st.spans[targets[k]]; s.SourceKey() in st.seated || MatchesSeat(s, e) || OpensAfterSeating(s, e))
  }

  lemma {:induction false} SeatedAllPlain(st: State, targets: seq<nat>, e: SuccessionEvent)
    requires Plain(st.spans) && EventOk(e) && TargetsOk(st, targets, e)
    ensures Plain(SeatedAll(st, targets, e).spans)
    decreases |targets|
  {
    if targets != [] {
      SeatedAtPlain(st, targets, e);
      hide PlainSpan, SeatedAt, TargetsOk;
      assert forall k :: 0 <= k < |targets| ==> targets[k] < |st.spans|;
      SeatedAllPlain(SeatedAt(st, targets[0], e), targets[1..], e);
    }
  }

  lemma SeatedAtPlain(st: State, targets: seq<nat>, e: SuccessionEvent)
    requires targets != [] && Plain(st.spans) && EventOk(e) && TargetsOk(st, targets, e)
    ensures var next := SeatedAt(st, targets[0], e); Plain(next.spans) && TargetsOk(next, targets[1..], e)
  {
    var s := st.spans[targets[0]];
    assert PlainSpan(s);
    if SeatingStartsTenure(s, e.effectiveDate) && s.SourceKey() !in st.seated { RedatedSound(s, e); }
    hide PlainSpan, MatchesSeat, OpensAfterSeating, SeatingStartsTenure;
  }

  lemma EventPlain(st: State, e: SuccessionEvent, g: Setting)
    requires Plain(st.spans) && EventOk(e)
    ensures Plain(AfterEvent(st, e, g).spans)
  {
    match e.kind
    case Departed =>
      SweptPlain(st.spans, |st.spans|, e, st.seated, g.context);
    case Vacated =>
      forall i | 0 <= i < |st.spans| ensures PlainSpan(Close(st.spans[i], e)) {
        assert PlainSpan(st.spans[i]);
        CloseSound(st.spans[i], e);
      }
      hide PlainSpan, Close, MatchesSeat;
    case Seated =>
      SynthesizedSound(e, g.current);
      SeatedAllPlain(st, Targets(st.spans, e), e);
      hide PlainSpan, Synthesize, SeatedAll, Targets;
  }

  lemma {:induction false} EventsPlain(st: State, events: seq<SuccessionEvent>, g: Setting)
    requires Plain(st.spans) && EventsOk(events)
    ensures Plain(AfterEvents(st, events, g).spans)
    decreases |events|
  {
    hide AfterEvent, PlainSpan;
    if events != [] {
      EventPlain(st, events[0], g);
      EventsPlain(AfterEvent(st, events[0], g), events[1..], g);
    }
  }

  lemma {:induction false} MintedPlain(candidates: seq<TenureSpan>, keys: set<string>, events: seq<SuccessionEvent>, g: Setting)
    requires EventsOk(events)
    ensures Plain(Minted(candidates, keys, events, g))
    decreases |events|
  {
    hide PlainSpan, SynthesizeClosed, Mints;
    if events != [] {
      var e := events[0];
      SynthesizedSound(e, BienniumOf(e.effectiveDate));
      if Mints(candidates, keys, e, g) {
        var s := SynthesizeClosed(e, BienniumOf(e.effectiveDate));
        MintedPlain(candidates + [s], keys + {s.SourceId()}, events[1..], g);
      } else {
        MintedPlain(candidates, keys, events[1..], g);
      }
    }
  }

  lemma InOrderOk(events: seq<SuccessionEvent>)
    requires EventsOk(events)
    ensures EventsOk(InOrder(events))
  {
    SortBySorts(events, EventOrder);
    var ordered := InOrder(events);
    forall i | 0 <= i < |ordered| ensures EventOk(ordered[i]) { assert ordered[i] in ordered; }
  }

  /** Sound, windowless spans in; sound, windowless spans out, before and after the merge. */
  lemma OverlaidPlain(spans: seq<TenureSpan>, events: seq<SuccessionEvent>, g: Setting)
    requires Plain(spans) && EventsOk(events)
    ensures Plain(Overlaid(spans, events, g).spans)
  {
    InOrderOk(events);
    MintedPlain(spans, SourceIds(spans), InOrder(events), g);
    hide PlainSpan, InOrder, Minted, AfterEvents;
    EventsPlain(State(spans + MoverTenures(spans, events, g), map[]), InOrder(events), g);
  }

  /** The overlay: mint the movers' tenures, apply the events in order, restore party
      continuity. */
  method ApplyOperatorEvents(spans: seq<TenureSpan>, events: seq<SuccessionEvent>, g: Setting) returns (r: seq<TenureSpan>)
    requires Plain(spans) && EventsOk(events)
    ensures Plain(Overlaid(spans, events, g).spans)
    ensures r == Merged(Overlaid(spans, events, g).spans)
  {
    hide PlainSpan, AfterEvent, Minted, SourceIds, InOrder;
    OverlaidPlain(spans, events, g);
    var ordered := InOrder(events);
    var minted := SynthesizeMoverTenures(spans, ordered, g);
    var st := State(spans + minted, map[]);
    assert ordered[0..] == ordered;
    for k := 0 to |ordered|
      invariant AfterEvents(st, ordered[k..], g) == Overlaid(spans, events, g)
    {
      assert ordered[k..][1..] == ordered[k + 1..];
      st := ApplyEvent(st, ordered[k], g);
    }
    r := MergePartyContinuity(st.spans);
  }

  method ApplyEvent(st: State, e: SuccessionEvent, g: Setting) returns (next: State)
    ensures next == AfterEvent(st, e, g)
  {
    hide Swept, AfterVacancy, AfterSeating;
    next := st;
    if e.kind == Departed {
      var result := Depart(st.spans, e, st.seated, g.context);
      next := State(result, st.seated);
    } else if Owned(e, g.owned) {
      if e.kind == Vacated {
        var result := Vacate(st.spans, e);
        next := State(result, st.seated);
      } else {
        next := Seat(st.spans, st.seated, e, g.current);
      }
    }
  }
}
