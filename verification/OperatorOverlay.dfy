/** Applying the operator's dated facts to the built spans: seatings and vacancies first,
    then departures, in date order; the party merge last. */
module OperatorOverlay {
  import opened Ordering
  import opened Terms
  import opened Tenure
  import opened TenureBuilder
  import opened PartyContinuity

  datatype EventKind = Departed | Vacated | Seated

  datatype SuccessionEvent = SuccessionEvent(
    memberId: string,
    kind: EventKind,
    effectiveDate: Date,
    seatKind: Option<string>,
    seatDiscriminator: Option<string>,
    basis: Basis)

  type SourceKey = (string, string, string, Biennium)

  /** The span list as the events leave it, and the date each span was seated on. */
  datatype State = State(spans: seq<TenureSpan>, seated: map<SourceKey, Date>)

  /** What stays the same over a whole overlay. */
  datatype Setting = Setting(
    current: Biennium,
    owned: set<string>,
    movers: map<Biennium, set<string>>,
    context: seq<TenureSpan>)

  predicate Owned(e: SuccessionEvent, owned: set<string>) {
    e.seatKind.Some? && e.seatKind.value in owned
  }

  // ----- Which spans an event speaks of

  predicate NamesSeat(s: TenureSpan, e: SuccessionEvent) {
    s.memberId == e.memberId && Some(s.kind) == e.seatKind && Some(s.discriminator) == e.seatDiscriminator
  }

  predicate MatchesSeat(s: TenureSpan, e: SuccessionEvent) {
    NamesSeat(s, e) && s.Covers(e.effectiveDate)
  }

  predicate OpensAfterSeating(s: TenureSpan, e: SuccessionEvent) {
    && NamesSeat(s, e)
    && s.validFrom == BienniumStart(s.startBiennium)
    && PreviousBiennium(s.startBiennium) == BienniumOf(e.effectiveDate)
  }

  predicate SeatingStartsTenure(s: TenureSpan, d: Date) {
    s.startBiennium >= BienniumOf(d)
  }

  predicate IsOpenThrough(s: TenureSpan, d: Date) {
    s.validFrom <= d && (s.validTo.None? || s.validTo.value > d)
  }

  predicate SeatedAtThisInstant(seated: map<SourceKey, Date>, s: TenureSpan, d: Date) {
    s.SourceKey() in seated && seated[s.SourceKey()] == d
  }

  // ----- What an event makes of a span

  function Close(s: TenureSpan, e: SuccessionEvent): TenureSpan {
    s.(validTo := Some(if e.effectiveDate < s.validFrom then s.validFrom else e.effectiveDate),
       isActive := false, endBasis := e.basis)
  }

  function OrEmpty(s: Option<string>): string {
    if s.Some? then s.value else ""
  }

  function Synthesize(e: SuccessionEvent, current: Biennium): TenureSpan {
    TenureSpan(e.memberId, OrEmpty(e.seatKind), OrEmpty(e.seatDiscriminator), current, current,
               e.effectiveDate, None, true, e.basis, Open, Principal, None, None)
  }

  function SynthesizeClosed(e: SuccessionEvent, b: Biennium): TenureSpan {
    var floor := BienniumStart(b);
    TenureSpan(e.memberId, OrEmpty(e.seatKind), OrEmpty(e.seatDiscriminator), b, b,
               floor, Some(if e.effectiveDate < floor then floor else e.effectiveDate), false,
               Tenure.Observed, e.basis, Principal, None, None)
  }

  /** `_re_entry_after`: the first span of the member, on another seat, that starts after
      the date and inside `span`'s window. */
  function ReEntryAfter(spans: seq<TenureSpan>, span: TenureSpan, d: Date): (r: Option<TenureSpan>)
    ensures r.Some? ==> r.value in spans && IsReEntry(r.value, span, d)
    ensures r.None? ==> forall i :: 0 <= i < |spans| ==> !IsReEntry(spans[i], span, d)
  {
    if spans == [] then None
    else if IsReEntry(spans[0], span, d) then Some(spans[0])
    else ReEntryAfter(spans[1..], span, d)
  }

  predicate IsReEntry(other: TenureSpan, span: TenureSpan, d: Date) {
    && other.memberId == span.memberId
    && other.Seat() != span.Seat()
    && d < other.validFrom
    && (span.validTo.None? || other.validFrom <= span.validTo.value)
  }

  function SplitTail(s: TenureSpan, returnDate: Date): Option<TenureSpan> {
    var b := BienniumOf(returnDate);
    if b == s.startBiennium then None
    else Some(s.(startBiennium := b, validFrom := returnDate, startBasis := Derived))
  }

  // ----- A departure

  /** The span list after the sweep has looked at position `i`. */
  function SweptAt(spans: seq<TenureSpan>, i: nat, e: SuccessionEvent, seated: map<SourceKey, Date>, context: seq<TenureSpan>): (r: seq<TenureSpan>)
    requires i < |spans|
    ensures |spans| <= |r| <= |spans| + 1
  {
    var s := spans[i];
    if s.memberId != e.memberId || !IsOpenThrough(s, e.effectiveDate) || SeatedAtThisInstant(seated, s, e.effectiveDate) then spans else
      var reEntry := ReEntryAfter(spans + context, s, e.effectiveDate);
      if reEntry.None? then spans[i := Close(s, e)] else
        var tail := SplitTail(s, reEntry.value.validFrom);
        if tail.None? then spans else spans[i := Close(s, e)] + [tail.value]
  }

  /** The span list after the sweep has looked at the first `k` positions. */
  function Swept(spans: seq<TenureSpan>, k: nat, e: SuccessionEvent, seated: map<SourceKey, Date>, context: seq<TenureSpan>): (r: seq<TenureSpan>)
    requires k <= |spans|
    ensures |spans| <= |r| <= |spans| + k
  {
    if k == 0 then spans else SweptAt(Swept(spans, k - 1, e, seated, context), k - 1, e, seated, context)
  }

  function AfterDeparture(st: State, e: SuccessionEvent, context: seq<TenureSpan>): State {
    State(Swept(st.spans, |st.spans|, e, st.seated, context), st.seated)
  }

  // ----- A vacancy and a seating

  function AfterVacancy(st: State, e: SuccessionEvent): State {
    State(seq(|st.spans|, i requires 0 <= i < |st.spans| => if MatchesSeat(st.spans[i], e) then Close(st.spans[i], e) else st.spans[i]), st.seated)
  }

  function Matching(e: SuccessionEvent): TenureSpan -> bool {
    (s: TenureSpan) => MatchesSeat(s, e)
  }

  function Opening(e: SuccessionEvent): TenureSpan -> bool {
    (s: TenureSpan) => OpensAfterSeating(s, e)
  }

  /** The spans whose window holds the seating, else those it opens a biennium early. */
  function Targets(spans: seq<TenureSpan>, e: SuccessionEvent): (r: seq<nat>)
    ensures forall k :: 0 <= k < |r| ==> r[k] < |spans| && (MatchesSeat(spans[r[k]], e) || OpensAfterSeating(spans[r[k]], e))
  {
    TargetsAre(spans, e);
    var matching := Positions(spans, Matching(e));
    if matching != [] then matching else Positions(spans, Opening(e))
  }

  lemma TargetsAre(spans: seq<TenureSpan>, e: SuccessionEvent)
    ensures forall k :: 0 <= k < |Positions(spans, Matching(e))| ==> Positions(spans, Matching(e))[k] < |spans| && MatchesSeat(spans[Positions(spans, Matching(e))[k]], e)
    ensures forall k :: 0 <= k < |Positions(spans, Opening(e))| ==> Positions(spans, Opening(e))[k] < |spans| && OpensAfterSeating(spans[Positions(spans, Opening(e))[k]], e)
  {
    forall i: nat { PositionsAre(spans, Matching(e), i); }
    forall i: nat { PositionsAre(spans, Opening(e), i); }
    hide Positions;
    var a, b := Positions(spans, Matching(e)), Positions(spans, Opening(e));
    forall k | 0 <= k < |a| ensures a[k] < |spans| && MatchesSeat(spans[a[k]], e) { assert a[k] in a; }
    forall k | 0 <= k < |b| ensures b[k] < |spans| && OpensAfterSeating(spans[b[k]], e) { assert b[k] in b; }
  }

  function SeatedAt(st: State, i: nat, e: SuccessionEvent): (r: State)
    requires i < |st.spans|
    ensures |r.spans| == |st.spans|
  {
    var s := st.spans[i];
    if !SeatingStartsTenure(s, e.effectiveDate) || s.SourceKey() in st.seated then st
    else State(st.spans[i := s.(validFrom := e.effectiveDate, startBasis := e.basis)], st.seated[s.SourceKey() := e.effectiveDate])
  }

  function SeatedAll(st: State, targets: seq<nat>, e: SuccessionEvent): (r: State)
    requires forall k :: 0 <= k < |targets| ==> targets[k] < |st.spans|
    ensures |r.spans| == |st.spans|
    decreases |targets|
  {
    if targets == [] then st else SeatedAll(SeatedAt(st, targets[0], e), targets[1..], e)
  }

  /** Some target starts where the seating says. */
  predicate Hits(spans: seq<TenureSpan>, targets: seq<nat>, e: SuccessionEvent)
    requires forall k :: 0 <= k < |targets| ==> targets[k] < |spans|
  {
    exists k :: 0 <= k < |targets| && SeatingStartsTenure(spans[targets[k]], e.effectiveDate)
  }

  function AfterSeating(st: State, e: SuccessionEvent, current: Biennium): State {
    var targets := Targets(st.spans, e);
    var next := SeatedAll(st, targets, e);
    if !Hits(st.spans, targets, e) && InBiennium(e.effectiveDate, current) then
      var s := Synthesize(e, current);
      State(next.spans + [s], next.seated[s.SourceKey() := e.effectiveDate])
    else next
  }

  // ----- The events, in order

  function AfterEvent(st: State, e: SuccessionEvent, g: Setting): State {
    match e.kind
    case Departed => AfterDeparture(st, e, g.context)
    case Vacated => if Owned(e, g.owned) then AfterVacancy(st, e) else st
    case Seated => if Owned(e, g.owned) then AfterSeating(st, e, g.current) else st
  }

  function AfterEvents(st: State, events: seq<SuccessionEvent>, g: Setting): State
    decreases |events|
  {
    if events == [] then st else AfterEvents(AfterEvent(st, events[0], g), events[1..], g)
  }

  /** Seat-scoped events before departures, each in date order. */
  function EventOrder(e: SuccessionEvent): SortKey {
    [Num(if e.kind == Departed then 1 else 0), Num(e.effectiveDate)]
  }

  function InOrder(events: seq<SuccessionEvent>): seq<SuccessionEvent> {
    SortBy(events, EventOrder)
  }

  // ----- The mover pre-pass

  function MoversOf(movers: map<Biennium, set<string>>, b: Biennium): set<string> {
    if b in movers then movers[b] else {}
  }

  /** The event implies a tenure of a mover that no span holds and no id is taken for. */
  predicate Mints(candidates: seq<TenureSpan>, keys: set<string>, e: SuccessionEvent, g: Setting) {
    && e.kind == Vacated && Owned(e, g.owned)
    && e.memberId in MoversOf(g.movers, BienniumOf(e.effectiveDate))
    && (forall i :: 0 <= i < |candidates| ==> !MatchesSeat(candidates[i], e))
    && SynthesizeClosed(e, BienniumOf(e.effectiveDate)).SourceId() !in keys
  }

  function Minted(candidates: seq<TenureSpan>, keys: set<string>, events: seq<SuccessionEvent>, g: Setting): seq<TenureSpan>
    decreases |events|
  {
    if events == [] then []
    else if Mints(candidates, keys, events[0], g) then
      var s := SynthesizeClosed(events[0], BienniumOf(events[0].effectiveDate));
      [s] + Minted(candidates + [s], keys + {s.SourceId()}, events[1..], g)
    else Minted(candidates, keys, events[1..], g)
  }

  function SourceIds(spans: seq<TenureSpan>): set<string> {
    set i | 0 <= i < |spans| :: spans[i].SourceId()
  }

  function MoverTenures(spans: seq<TenureSpan>, events: seq<SuccessionEvent>, g: Setting): seq<TenureSpan> {
    Minted(spans, SourceIds(spans), InOrder(events), g)
  }

  /** The spans before the closing party merge. */
  function Overlaid(spans: seq<TenureSpan>, events: seq<SuccessionEvent>, g: Setting): State {
    AfterEvents(State(spans + MoverTenures(spans, events, g), map[]), InOrder(events), g)
  }

  // ----- What a sweep keeps

  /** Position for position the spans of `u` are still there in `v`, none with another
      start, owner or key, and whatever was added starts after `d`. */
  ghost predicate Onward(u: seq<TenureSpan>, v: seq<TenureSpan>, d: Date) {
    && |u| <= |v|
    && (forall i :: 0 <= i < |u| ==> v[i].SourceKey() == u[i].SourceKey() && v[i].validFrom == u[i].validFrom)
    && (forall i :: |u| <= i < |v| ==> d < v[i].validFrom)
  }

  lemma SweptAtOnward(spans: seq<TenureSpan>, i: nat, e: SuccessionEvent, seated: map<SourceKey, Date>, context: seq<TenureSpan>)
    requires i < |spans|
    ensures Onward(spans, SweptAt(spans, i, e, seated, context), e.effectiveDate)
    ensures forall j :: 0 <= j < |spans| && j != i ==> SweptAt(spans, i, e, seated, context)[j] == spans[j]
  {
    hide ReEntryAfter, IsOpenThrough, SeatedAtThisInstant;
  }

  lemma {:induction false} SweptOnward(spans: seq<TenureSpan>, k: nat, e: SuccessionEvent, seated: map<SourceKey, Date>, context: seq<TenureSpan>)
    requires k <= |spans|
    ensures Onward(spans, Swept(spans, k, e, seated, context), e.effectiveDate)
    ensures forall j :: k <= j < |spans| ==> Swept(spans, k, e, seated, context)[j] == spans[j]
  {
    hide SweptAt;
    if k > 0 {
      SweptOnward(spans, k - 1, e, seated, context);
      SweptAtOnward(Swept(spans, k - 1, e, seated, context), k - 1, e, seated, context);
    }
  }

  /** A tail opens after the departure, so the sweep that appended it passes it over. */
  lemma SweptAtAdded(spans: seq<TenureSpan>, i: nat, e: SuccessionEvent, seated: map<SourceKey, Date>, context: seq<TenureSpan>)
    requires i < |spans| && e.effectiveDate < spans[i].validFrom
    ensures SweptAt(spans, i, e, seated, context) == spans
  {
  }

  // ----- The overlay, in loops

  /** The departure sweep over a list that grows under it. */
  method Depart(spans: seq<TenureSpan>, e: SuccessionEvent, seated: map<SourceKey, Date>, context: seq<TenureSpan>)
    returns (result: seq<TenureSpan>)
    ensures result == Swept(spans, |spans|, e, seated, context)
  {
    hide Swept, SweptAt, ReEntryAfter, SplitTail, Close, IsOpenThrough, SeatedAtThisInstant, Onward;
    result := spans;
    var i := 0;
    NotSweptYet(spans, e, seated, context);
    while i < |result|
      invariant i <= |result|
      invariant result == Swept(spans, if i < |spans| then i else |spans|, e, seated, context)
      decreases if i < |spans| then |spans| - i else 0, |result| - i
    {
      SweepsOn(spans, i, e, seated, context);
      var s := result[i];
      ghost var was := result;
      if s.memberId == e.memberId && IsOpenThrough(s, e.effectiveDate) && !SeatedAtThisInstant(seated, s, e.effectiveDate) {
        var reEntry := ReEntryAfter(result + context, s, e.effectiveDate);
        result := result[i := Close(s, e)];
        if reEntry.Some? {
          var tail := SplitTail(s, reEntry.value.validFrom);
          if tail.None? { result := result[i := s]; } else { result := result + [tail.value]; }
        }
      }
      SweptAtIs(was, i, e, seated, context, result);
      i := i + 1;
    }
  }

  lemma NotSweptYet(spans: seq<TenureSpan>, e: SuccessionEvent, seated: map<SourceKey, Date>, context: seq<TenureSpan>)
    ensures Swept(spans, 0, e, seated, context) == spans
  {
  }

  lemma SweepsOn(spans: seq<TenureSpan>, i: nat, e: SuccessionEvent, seated: map<SourceKey, Date>, context: seq<TenureSpan>)
    ensures i < |spans| ==> Swept(spans, i + 1, e, seated, context) == SweptAt(Swept(spans, i, e, seated, context), i, e, seated, context)
    ensures var all := Swept(spans, |spans|, e, seated, context); |spans| <= i < |all| ==> SweptAt(all, i, e, seated, context) == all
  {
    SweptOnward(spans, |spans|, e, seated, context);
    var all := Swept(spans, |spans|, e, seated, context);
    if |spans| <= i < |all| { SweptAtAdded(all, i, e, seated, context); }
    hide SweptAt;
  }

  /** What one turn of the sweep leaves is what the specification says. */
  lemma SweptAtIs(spans: seq<TenureSpan>, i: nat, e: SuccessionEvent, seated: map<SourceKey, Date>, context: seq<TenureSpan>, result: seq<TenureSpan>)
    requires i < |spans|
    requires var s := spans[i];
             if s.memberId == e.memberId && IsOpenThrough(s, e.effectiveDate) && !SeatedAtThisInstant(seated, s, e.effectiveDate) then
               var reEntry := ReEntryAfter(spans + context, s, e.effectiveDate);
               if reEntry.None? then result == spans[i := Close(s, e)]
               else var tail := SplitTail(s, reEntry.value.validFrom);
                    result == if tail.None? then spans[i := Close(s, e)][i := s] else spans[i := Close(s, e)] + [tail.value]
             else result == spans
    ensures result == SweptAt(spans, i, e, seated, context)
    ensures |result| <= |spans| + 1 && (i < |spans| ==> |result| > i)
  {
    hide ReEntryAfter, SplitTail, Close, IsOpenThrough, SeatedAtThisInstant;
    assert spans[i := Close(spans[i], e)][i := spans[i]] == spans;
  }

  method Vacate(spans: seq<TenureSpan>, e: SuccessionEvent) returns (result: seq<TenureSpan>)
    ensures forall seated :: State(result, seated) == AfterVacancy(State(spans, seated), e)
  {
    hide MatchesSeat, Close;
    result := spans;
    for i := 0 to |spans|
      invariant |result| == |spans|
      invariant forall j :: 0 <= j < |spans| ==> result[j] == if j < i && MatchesSeat(spans[j], e) then Close(spans[j], e) else spans[j]
    {
      if MatchesSeat(result[i], e) { result := result[i := Close(result[i], e)]; }
    }
  }

  method SynthesizeMoverTenures(spans: seq<TenureSpan>, ordered: seq<SuccessionEvent>, g: Setting) returns (minted: seq<TenureSpan>)
    ensures minted == Minted(spans, SourceIds(spans), ordered, g)
  {
    hide Mints, SynthesizeClosed, SourceIds;
    minted := [];
    var candidates, keys := spans, SourceIds(spans);
    assert ordered[0..] == ordered;
    for k := 0 to |ordered|
      invariant minted + Minted(candidates, keys, ordered[k..], g) == Minted(spans, SourceIds(spans), ordered, g)
    {
      assert ordered[k..][1..] == ordered[k + 1..];
      var e := ordered[k];
      if !Mints(candidates, keys, e, g) { continue; }
      var s := SynthesizeClosed(e, BienniumOf(e.effectiveDate));
      ghost var rest := Minted(candidates + [s], keys + {s.SourceId()}, ordered[k + 1..], g);
      assert minted + ([s] + rest) == (minted + [s]) + rest;
      keys := keys + {s.SourceId()};
      candidates := candidates + [s];
      minted := minted + [s];
    }
  }
}
