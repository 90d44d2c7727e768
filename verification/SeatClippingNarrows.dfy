/** The clip only narrows: what every step, and so the whole pass, keeps. */
module SeatClippingNarrows {
  import opened Ordering
  import opened Terms
  import opened Tenure
  import opened SeatClipping

  /** An overlap is a strict intersection of the two windows, an open end unbounded. */
  lemma OverlapsMeans(a: TenureSpan, b: TenureSpan)
    ensures Overlaps(a, b) <==> a.validFrom < b.EndOrOpen() && b.validFrom < a.EndOrOpen()
  {
  }

  // ----- One span against what it becomes

  predicate SameIdentity(a: TenureSpan, b: TenureSpan) {
    && a.SourceKey() == b.SourceKey()
    && a.endBiennium == b.endBiennium
    && a.membership == b.membership
  }

  predicate DatedToTheDayAtStart(s: TenureSpan) { s.startBasis == Dated && DayStart(s) }
  predicate DatedToTheDayAtEnd(s: TenureSpan) { s.endBasis == Dated && DayEnd(s) }

  /** `b` is `a` clipped: the same tenure on a window inside `a`'s, of some length if it
      was touched at all; an edge that moved or changed basis says "derived", and an edge
      stated to the day is as it was. */
  predicate Narrower(a: TenureSpan, b: TenureSpan) {
    && SameIdentity(a, b)
    && a.validFrom <= b.validFrom && b.EndOrOpen() <= a.EndOrOpen()
    && (b != a ==> b.validFrom < b.EndOrOpen())
    && (b.validFrom != a.validFrom || b.startBasis != a.startBasis || a.startBasis == Derived ==> b.startBasis == Derived)
    && (b.validTo != a.validTo || b.endBasis != a.endBasis || a.endBasis == Derived ==> b.endBasis == Derived)
    && (DatedToTheDayAtStart(a) ==> DatedToTheDayAtStart(b))
    && (DatedToTheDayAtEnd(a) ==> DatedToTheDayAtEnd(b))
    && (b.startBasis == Dated ==> b.ValidFromLatest() <= a.ValidFromLatest())
    && (a.Windowless() ==> b.Windowless())
    && (a.Valid() ==> b.Valid())
    && (a.Sound() ==> b.Sound())
  }

  lemma NarrowerTransitive(a: TenureSpan, b: TenureSpan, c: TenureSpan)
    requires Narrower(a, b) && Narrower(b, c)
    ensures Narrower(a, c)
  {
    hide TenureSpan.Valid, TenureSpan.Sound, DayStart, DayEnd, TenureSpan.Windowless;
  }

  /** The dates a span states: its dated edges and the far edges of their windows. */
  function StatedDates(s: TenureSpan): set<Date> {
    (if s.startBasis == Dated then {s.validFrom} else {})
    + (if s.endBasis == Dated && s.validTo.Some? then {s.validTo.value} else {})
    + (if s.startWindowEnd.Some? then {s.startWindowEnd.value} else {})
    + (if s.endWindowStart.Some? then {s.endWindowStart.value} else {})
  }

  /** Every date `b` states, and every edge of `b` that moved, is one of `dates` or was
      already stated by `a`. */
  predicate DatesFrom(a: TenureSpan, b: TenureSpan, dates: set<Date>) {
    && StatedDates(b) <= StatedDates(a) + dates
    && (b.validFrom != a.validFrom ==> b.validFrom in dates)
    && (b.validTo != a.validTo ==> b.validTo.Some? && b.validTo.value in dates)
  }

  lemma CloseNarrows(s: TenureSpan, boundary: Date)
    requires s.Valid() && s.validFrom < boundary <= s.EndOrOpen() && !DatedToTheDayAtEnd(s)
    ensures Narrower(s, ClosedAt(s, boundary))
    ensures DatesFrom(s, ClosedAt(s, boundary), if s.validTo == Some(boundary) then {} else {boundary})
  {
    hide BienniumStart, BienniumEnd, BienniumOf;
  }

  lemma OpenNarrows(s: TenureSpan, boundary: Date)
    requires s.Valid() && s.validFrom <= boundary < s.EndOrOpen() && !DatedToTheDayAtStart(s)
    requires InBiennium(boundary, s.startBiennium)
    ensures Narrower(s, OpenedAt(s, boundary))
    ensures DatesFrom(s, OpenedAt(s, boundary), if s.validFrom == boundary then {} else {boundary})
  {
    BienniumWindow(boundary, s.startBiennium);
    hide BienniumStart, BienniumEnd, BienniumOf, InBiennium;
  }

  lemma MoveNarrows(a: TenureSpan, b: TenureSpan)
    requires a.Valid() && b.Valid()
    ensures Narrower(a, ResolvedMove(a, b))
    ensures DatesFrom(a, ResolvedMove(a, b), StatedDates(b))
  {
    hide ClosedAt, Narrower, BienniumStart, BienniumEnd;
    NarrowerItself(a);
    if ResolvedMove(a, b) != a {
      OverlapsMeans(a, b);
      var boundary := Min(b.ValidFromLatest(), a.EndOrOpen());
      CloseNarrows(a, boundary);
    }
  }

  lemma NarrowerItself(a: TenureSpan)
    ensures Narrower(a, a) && DatesFrom(a, a, {})
  {
  }

  lemma HandoffNarrows(pred: TenureSpan, succ: TenureSpan)
    requires pred.Valid() && succ.Valid() && Overlaps(pred, succ) && TenureLe(pred, succ)
    ensures var h := Handoff(pred, succ);
            && Narrower(pred, h.a) && Narrower(succ, h.b)
            && DatesFrom(pred, h.a, StatedDates(succ)) && DatesFrom(succ, h.b, StatedDates(pred))
  {
    DatesFromNothing(pred, StatedDates(succ));
    DatesFromNothing(succ, StatedDates(pred));
    HandoffIs(pred, succ);
    hide Handoff, OpenSuccessor, ClosePredecessor, Narrower, DatesFrom, TenureSpan.Valid, Overlaps, StatedDates;
    var h := Handoff(pred, succ);
    if h.b != succ {
      OpenSuccessorNarrows(pred, succ);
    } else if h.a != pred {
      ClosePredecessorNarrows(pred, succ);
    }
  }

  /** The rulings that move an edge, and what each asks of the edge it moves. */
  lemma HandoffIs(pred: TenureSpan, succ: TenureSpan)
    ensures var h := Handoff(pred, succ);
            || (h.a == pred && h.b == succ)
            || (StatedExit(pred).Some? && h == OpenSuccessor(pred, succ, StatedExit(pred).value)
                && h.a == pred && !DatedToTheDayAtStart(succ))
            || (StatedStart(succ) && h == ClosePredecessor(pred, succ)
                && h.b == succ && !DatedToTheDayAtEnd(pred))
  {
    hide ClosedAt, OpenedAt, InBiennium, DayStart, BienniumStart, BienniumEnd, TenureSpan.ValidFromLatest;
  }

  lemma OpenSuccessorNarrows(pred: TenureSpan, succ: TenureSpan)
    requires pred.Valid() && succ.Valid() && Overlaps(pred, succ) && StatedExit(pred).Some?
    requires !DatedToTheDayAtStart(succ) && OpenSuccessor(pred, succ, StatedExit(pred).value).b != succ
    ensures var b := OpenSuccessor(pred, succ, StatedExit(pred).value).b;
            Narrower(succ, b) && DatesFrom(succ, b, StatedDates(pred))
  {
    OverlapsMeans(pred, succ);
    hide OpenedAt, Narrower, InBiennium, DatesFrom, Overlaps, DatedToTheDayAtStart;
    var boundary := Max(StatedExit(pred).value, succ.validFrom);
    OpenNarrows(succ, boundary);
    DatesFromMore(succ, OpenedAt(succ, boundary), if succ.validFrom == boundary then {} else {boundary}, StatedDates(pred));
  }

  lemma ClosePredecessorNarrows(pred: TenureSpan, succ: TenureSpan)
    requires pred.Valid() && succ.Valid() && Overlaps(pred, succ) && StatedStart(succ)
    requires !DatedToTheDayAtEnd(pred) && ClosePredecessor(pred, succ).a != pred
    ensures var a := ClosePredecessor(pred, succ).a;
            Narrower(pred, a) && DatesFrom(pred, a, StatedDates(succ))
  {
    OverlapsMeans(pred, succ);
    hide ClosedAt, Narrower, DatesFrom, Overlaps, DatedToTheDayAtEnd;
    var boundary := Min(succ.ValidFromLatest(), pred.EndOrOpen());
    CloseNarrows(pred, boundary);
    DatesFromMore(pred, ClosedAt(pred, boundary), if pred.validTo == Some(boundary) then {} else {boundary}, StatedDates(succ));
  }

  lemma DatesFromMore(a: TenureSpan, b: TenureSpan, few: set<Date>, many: set<Date>)
    requires DatesFrom(a, b, few) && few <= many
    ensures DatesFrom(a, b, many)
  {
  }

  lemma DatesFromNothing(a: TenureSpan, dates: set<Date>)
    ensures Narrower(a, a) && DatesFrom(a, a, dates)
  {
  }

  lemma PairNarrows(a: TenureSpan, b: TenureSpan, capacity: Capacity)
    requires a.Valid() && b.Valid()
    ensures var r := ResolvedPair(a, b, capacity);
            && Narrower(a, r.a) && Narrower(b, r.b)
            && DatesFrom(a, r.a, StatedDates(b)) && DatesFrom(b, r.b, StatedDates(a))
  {
    hide Handoff, Overlaps, MultiHolder, DatesFrom, Narrower;
    DatesFromNothing(a, StatedDates(b));
    DatesFromNothing(b, StatedDates(a));
    if a.memberId != b.memberId && Overlaps(a, b) {
      OverlapsMeans(a, b); OverlapsMeans(b, a);
      if TenureLe(a, b) { HandoffNarrows(a, b); } else { HandoffNarrows(b, a); }
    }
  }

  // ----- The whole pass

  type WorkRelation = (seq<TenureSpan>, seq<TenureSpan>) -> bool

  /** The relation holds of no step, and of steps put end to end. */
  ghost predicate Composes(R: WorkRelation) {
    && (forall w :: R(w, w))
    && (forall u, v, w :: R(u, v) && R(v, w) ==> R(u, w))
  }

  ghost predicate HoldsOfMoves(R: WorkRelation) {
    forall w, p: Pair :: p.0 < |w| && p.1 < |w| ==> R(w, MoveStep(w, p))
  }

  ghost predicate HoldsOfHandoffs(R: WorkRelation, capacity: Capacity) {
    forall w, p: Pair :: p.0 < |w| && p.1 < |w| ==> R(w, PairStep(w, p, capacity))
  }

  ghost predicate Stepwise(R: WorkRelation, capacity: Capacity) {
    Composes(R) && HoldsOfMoves(R) && HoldsOfHandoffs(R, capacity)
  }

  lemma {:induction false} MovesInduction(R: WorkRelation, w: seq<TenureSpan>, pairs: seq<Pair>)
    requires Composes(R) && HoldsOfMoves(R) && Within(pairs, |w|)
    ensures R(w, Moves(w, pairs))
    decreases |pairs|
  {
    hide MoveStep;
    if pairs != [] {
      MovesInduction(R, MoveStep(w, pairs[0]), pairs[1..]);
      assert R(w, MoveStep(w, pairs[0]));
    }
  }

  lemma {:induction false} HandoffsInduction(R: WorkRelation, w: seq<TenureSpan>, pairs: seq<Pair>, capacity: Capacity)
    requires Composes(R) && HoldsOfHandoffs(R, capacity) && Within(pairs, |w|)
    ensures R(w, Handoffs(w, pairs, capacity).spans)
    decreases |pairs|
  {
    hide PairStep;
    if pairs != [] {
      HandoffsInduction(R, PairStep(w, pairs[0], capacity), pairs[1..], capacity);
      assert R(w, PairStep(w, pairs[0], capacity));
    }
  }

  lemma {:induction false} MemberPassInduction(R: WorkRelation, w: seq<TenureSpan>, members: seq<string>)
    requires Composes(R) && HoldsOfMoves(R)
    ensures R(w, MemberPass(w, members))
    decreases |members|
  {
    hide Moves, MemberPairs, MoveStep;
    if members != [] {
      var next := Moves(w, MemberPairs(w, members[0]));
      MovesInduction(R, w, MemberPairs(w, members[0]));
      MemberPassInduction(R, next, members[1..]);
    }
  }

  lemma {:induction false} SeatPassInduction(R: WorkRelation, w: seq<TenureSpan>, seats: seq<(string, string)>, capacity: Capacity)
    requires Composes(R) && HoldsOfHandoffs(R, capacity)
    ensures R(w, SeatPass(w, seats, capacity).spans)
    decreases |seats|
  {
    hide SeatPairs, Handoffs, PairStep;
    if seats != [] {
      var next := Handoffs(w, SeatPairs(w, seats[0]), capacity).spans;
      HandoffsInduction(R, w, SeatPairs(w, seats[0]), capacity);
      SeatPassInduction(R, next, seats[1..], capacity);
    }
  }

  /** What holds of each step of the clip holds of the clip. */
  lemma ClipInduction(R: WorkRelation, spans: seq<TenureSpan>, capacity: Capacity)
    requires Stepwise(R, capacity)
    ensures R(spans, Clipped(spans, capacity).spans)
  {
    hide MemberPass, SeatPass, MembersOf, SeatsOf, HoldsOfMoves, HoldsOfHandoffs;
    var moved := MemberPass(spans, MembersOf(spans));
    MemberPassInduction(R, spans, MembersOf(spans));
    SeatPassInduction(R, moved, SeatsOf(moved), capacity);
  }

  ghost predicate AllValid(w: seq<TenureSpan>) {
    forall k :: 0 <= k < |w| ==> w[k].Valid()
  }

  /** `d` is a date some span of `w` states. */
  ghost predicate Stated(w: seq<TenureSpan>, d: Date) {
    exists k :: 0 <= k < |w| && d in StatedDates(w[k])
  }

  /** `v` is `u` clipped, span for span, and every edge it moved lands on a date `u` states. */
  ghost predicate ClippedFrom(u: seq<TenureSpan>, v: seq<TenureSpan>) {
    && |v| == |u|
    && (forall k :: 0 <= k < |u| ==> Narrower(u[k], v[k]))
    && (forall k :: 0 <= k < |u| && v[k].validFrom != u[k].validFrom ==> Stated(u, v[k].validFrom))
    && (forall k :: 0 <= k < |u| && v[k].validTo != u[k].validTo ==> v[k].validTo.Some? && Stated(u, v[k].validTo.value))
    && (forall d :: Stated(v, d) ==> Stated(u, d))
  }

  ghost predicate ValidlyClipped(u: seq<TenureSpan>, v: seq<TenureSpan>) {
    AllValid(u) ==> AllValid(v) && ClippedFrom(u, v)
  }

  lemma ClippedFromTransitive(u: seq<TenureSpan>, v: seq<TenureSpan>, w: seq<TenureSpan>)
    requires ClippedFrom(u, v) && ClippedFrom(v, w)
    ensures ClippedFrom(u, w)
  {
    hide Narrower, Stated;
    forall k | 0 <= k < |u| ensures Narrower(u[k], w[k]) {
      NarrowerTransitive(u[k], v[k], w[k]);
    }
  }

  /** One or two positions replaced by what clipping makes of them. */
  lemma ReplacedClips(u: seq<TenureSpan>, i: nat, j: nat, a: TenureSpan, b: TenureSpan)
    requires AllValid(u) && i < |u| && j < |u| && i != j
    requires Narrower(u[i], a) && DatesFrom(u[i], a, StatedDates(u[j]))
    requires Narrower(u[j], b) && DatesFrom(u[j], b, StatedDates(u[i]))
    ensures ValidlyClipped(u, u[i := a][j := b])
  {
    var v := u[i := a][j := b];
    assert AllValid(v) by {
      assert a.Valid() && b.Valid();
      hide Narrower, StatedDates, TenureSpan.Valid;
    }
    hide Narrower, StatedDates, AllValid, Stated, DatesFrom;
    forall k | 0 <= k < |u| ensures Narrower(u[k], v[k]) {
      NarrowerItself(u[k]);
    }
    ReplacedDates(u, i, j, a, b);
  }

  lemma ReplacedDates(u: seq<TenureSpan>, i: nat, j: nat, a: TenureSpan, b: TenureSpan)
    requires i < |u| && j < |u| && i != j
    requires DatesFrom(u[i], a, StatedDates(u[j])) && DatesFrom(u[j], b, StatedDates(u[i]))
    ensures var v := u[i := a][j := b];
            && (forall k :: 0 <= k < |u| && v[k].validFrom != u[k].validFrom ==> Stated(u, v[k].validFrom))
            && (forall k :: 0 <= k < |u| && v[k].validTo != u[k].validTo ==> v[k].validTo.Some? && Stated(u, v[k].validTo.value))
            && (forall d :: Stated(v, d) ==> Stated(u, d))
  {
    hide StatedDates;
    var v := u[i := a][j := b];
    forall d | Stated(v, d) ensures Stated(u, d) {
      var k :| 0 <= k < |v| && d in StatedDates(v[k]);
      assert d in StatedDates(u[k]) || d in StatedDates(u[i]) || d in StatedDates(u[j]);
    }
  }

  lemma ClipStepsNarrow(capacity: Capacity)
    ensures Stepwise(ValidlyClipped, capacity)
  {
    hide ClippedFrom, AllValid, Narrower, DatesFrom;
    forall w ensures ValidlyClipped(w, w) { NothingClipped(w); }
    forall u, v, w | ValidlyClipped(u, v) && ValidlyClipped(v, w) ensures ValidlyClipped(u, w) {
      if AllValid(u) { ClippedFromTransitive(u, v, w); }
    }
    forall w: seq<TenureSpan>, p: Pair | p.0 < |w| && p.1 < |w|
      ensures ValidlyClipped(w, MoveStep(w, p)) && ValidlyClipped(w, PairStep(w, p, capacity))
    {
      StepNarrows(w, p, capacity);
    }
  }

  lemma NothingClipped(w: seq<TenureSpan>)
    ensures ValidlyClipped(w, w)
  {
    hide Narrower, StatedDates;
    forall k | 0 <= k < |w| ensures Narrower(w[k], w[k]) { NarrowerItself(w[k]); }
  }

  lemma StepNarrows(w: seq<TenureSpan>, p: Pair, capacity: Capacity)
    requires p.0 < |w| && p.1 < |w|
    ensures ValidlyClipped(w, MoveStep(w, p))
    ensures ValidlyClipped(w, PairStep(w, p, capacity))
  {
    hide ClippedFrom, Narrower, DatesFrom, Handoff;
    NothingClipped(w);
    var a, b := w[p.0], w[p.1];
    if AllValid(w) {
      assert a.Valid() && b.Valid();
      if p.0 == p.1 {
        assert MoveStep(w, p) == w && PairStep(w, p, capacity) == w;
      } else {
        hide ResolvedMove, ResolvedPair, ValidlyClipped;
        MoveNarrows(a, b);
        PairNarrows(a, b, capacity);
        DatesFromNothing(b, StatedDates(a));
        assert w[p.0 := ResolvedMove(a, b)] == w[p.0 := ResolvedMove(a, b)][p.1 := b];
        ReplacedClips(w, p.0, p.1, ResolvedMove(a, b), b);
        ReplacedClips(w, p.0, p.1, ResolvedPair(a, b, capacity).a, ResolvedPair(a, b, capacity).b);
      }
    }
  }

  /** The clip only narrows. Of any spans the constructor accepts it makes spans the
      constructor accepts, position for position the same tenures on windows inside their
      own; nothing it touches ends up with no length; an edge stated to the day survives;
      an edge that moved is marked derived and lands on a date the input states. */
  lemma ClipOnlyNarrows(spans: seq<TenureSpan>, capacity: Capacity)
    requires AllValid(spans)
    ensures var out := Clipped(spans, capacity).spans; AllValid(out) && ClippedFrom(spans, out)
  {
    hide ClippedFrom, AllValid;
    ClipStepsNarrow(capacity);
    ClipInduction(ValidlyClipped, spans, capacity);
  }

  /** Soundness of every span is one of the things narrowing keeps. */
  lemma ClipKeepsSound(spans: seq<TenureSpan>, capacity: Capacity)
    requires forall k :: 0 <= k < |spans| ==> spans[k].Sound()
    ensures var out := Clipped(spans, capacity).spans;
            forall k :: 0 <= k < |out| ==> out[k].Sound()
  {
    ClipOnlyNarrows(spans, capacity);
  }
}
