/** What the clip leaves standing, and what it reports: the two agree, except where
    a date is stated no closer than a window. */
module SeatClippingResidue {
  import opened Ordering
  import opened Terms
  import opened Tenure
  import opened SeatClipping
  import opened SeatClippingNarrows

  /** A narrower pair overlaps only if the wider one did. */
  lemma ShrinkingMakesNoOverlap(a: TenureSpan, b: TenureSpan, c: TenureSpan, d: TenureSpan)
    requires Narrower(a, c) && Narrower(b, d)
    ensures Overlaps(c, d) ==> Overlaps(a, b)
  {
    OverlapsMeans(a, b);
    OverlapsMeans(c, d);
  }

  /** An edge stated, but no closer than a window. */
  predicate LooseStart(s: TenureSpan) { StatedStart(s) && !DayStart(s) }
  predicate LooseEnd(s: TenureSpan) { s.endBasis == Dated && !DayEnd(s) }

  /** Exactly one side of the handoff states its date, and not to the day. */
  predicate LooselyStated(pred: TenureSpan, succ: TenureSpan) {
    || (LooseEnd(pred) && !StatedStart(succ))
    || (pred.endBasis != Dated && LooseStart(succ))
  }

  /** Where one side of a handoff states its date to a window only, the other states its
      date to the day. */
  predicate FirmHandoff(pred: TenureSpan, succ: TenureSpan) {
    && (LooseEnd(pred) ==> DatedToTheDayAtStart(succ))
    && (LooseStart(succ) ==> DatedToTheDayAtEnd(pred))
  }

  predicate Firm(a: TenureSpan, b: TenureSpan) { FirmHandoff(a, b) && FirmHandoff(b, a) }

  lemma WindowlessIsFirm(a: TenureSpan, b: TenureSpan)
    requires a.Valid() && b.Valid() && a.Windowless() && b.Windowless()
    ensures Firm(a, b)
  {
  }

  /** An edge stated to the day stays so, and clipping makes no edge loose. */
  lemma FirmAfter(a: TenureSpan, b: TenureSpan, c: TenureSpan, d: TenureSpan)
    requires Narrower(a, c) && Narrower(b, d) && Firm(a, b)
    ensures Firm(c, d)
  {
    hide DayStart, DayEnd, TenureSpan.Valid, TenureSpan.Sound, TenureSpan.Windowless, TenureSpan.ValidFromLatest;
  }

  /** A handoff the rule resolves leaves the two tenures touching, exactly when it did not
      have to work from a window: a window's inner edge is all the rule may claim, and
      it can fall short of the other tenure's edge. */
  lemma ResolvedHandoffTouches(pred: TenureSpan, succ: TenureSpan)
    requires pred.Valid() && succ.Valid() && Overlaps(pred, succ) && TenureLe(pred, succ)
    requires Handoff(pred, succ).reason.None?
    ensures var h := Handoff(pred, succ); Overlaps(h.a, h.b) <==> LooselyStated(pred, succ)
  {
    hide BienniumStart, BienniumEnd, InBiennium, Overlaps;
    var h := Handoff(pred, succ);
    OverlapsMeans(pred, succ);
    OverlapsMeans(h.a, h.b);
  }

  lemma PairSettles(a: TenureSpan, b: TenureSpan, capacity: Capacity)
    requires a.Valid() && b.Valid() && Firm(a, b) && a.memberId != b.memberId
    ensures var r := ResolvedPair(a, b, capacity); r.reason.Some? || !Overlaps(r.a, r.b)
  {
    hide Handoff, Overlaps, MultiHolder;
    OverlapsMeans(a, b); OverlapsMeans(b, a);
    var r := ResolvedPair(a, b, capacity);
    OverlapsMeans(r.a, r.b); OverlapsMeans(r.b, r.a);
    if Overlaps(a, b) && r.reason.None? {
      if TenureLe(a, b) { ResolvedHandoffTouches(a, b); } else { ResolvedHandoffTouches(b, a); }
    }
  }

  /** `u` reports an overlap of these two tenures. */
  predicate Reports(u: UnclippedOverlap, a: TenureSpan, b: TenureSpan) {
    u.seat == a.Seat() == b.Seat()
    && ((u.memberA == a.memberId && u.memberB == b.memberId) || (u.memberA == b.memberId && u.memberB == a.memberId))
  }

  ghost predicate Reported(unclipped: seq<UnclippedOverlap>, a: TenureSpan, b: TenureSpan) {
    exists k :: 0 <= k < |unclipped| && Reports(unclipped[k], a, b)
  }

  /** Nothing is left to say of `i` and `j`: they no longer overlap, or a report names them. */
  ghost predicate Settled(r: SeatClipResult, i: nat, j: nat)
    requires i < |r.spans| && j < |r.spans|
  {
    !Overlaps(r.spans[i], r.spans[j]) || Reported(r.unclipped, r.spans[i], r.spans[j])
  }

  ghost predicate Rivals(w: seq<TenureSpan>, i: nat, j: nat) {
    && i < |w| && j < |w| && i != j
    && w[i].Seat() == w[j].Seat() && w[i].memberId != w[j].memberId
    && Firm(w[i], w[j])
  }

  lemma ReportedPersists(before: seq<UnclippedOverlap>, after: seq<UnclippedOverlap>, a: TenureSpan, b: TenureSpan, c: TenureSpan, d: TenureSpan)
    requires Reported(before, a, b)
    requires c.Seat() == a.Seat() && d.Seat() == b.Seat() && c.memberId == a.memberId && d.memberId == b.memberId
    ensures Reported(before + after, c, d)
  {
    var k :| 0 <= k < |before| && Reports(before[k], a, b);
    assert Reports((before + after)[k], c, d);
  }

  /** Clipping and reporting more settles no pair less. */
  lemma SettledPersists(u: seq<TenureSpan>, v: seq<TenureSpan>, before: seq<UnclippedOverlap>, after: seq<UnclippedOverlap>, i: nat, j: nat)
    requires AllValid(u) && ValidlyClipped(u, v) && i < |u| && j < |u|
    requires Settled(SeatClipResult(u, before), i, j)
    ensures |v| == |u| && Settled(SeatClipResult(v, before + after), i, j)
  {
    hide Narrower, Overlaps, AllValid, Stated, Reported, TenureSpan.Seat;
    ShrinkingMakesNoOverlap(u[i], u[j], v[i], v[j]);
    SameSeatAfter(u, v, i);
    SameSeatAfter(u, v, j);
    if Reported(before, u[i], u[j]) { ReportedPersists(before, after, u[i], u[j], v[i], v[j]); }
  }

  lemma RivalsRemain(u: seq<TenureSpan>, v: seq<TenureSpan>, i: nat, j: nat)
    requires AllValid(u) && ValidlyClipped(u, v) && Rivals(u, i, j)
    ensures AllValid(v) && Rivals(v, i, j)
  {
    FirmAfter(u[i], u[j], v[i], v[j]);
    hide Firm;
  }

  /** Reports already made stand in front of those still to come. */
  lemma SettledEarlier(r: SeatClipResult, before: seq<UnclippedOverlap>, i: nat, j: nat)
    requires i < |r.spans| && j < |r.spans| && Settled(r, i, j)
    ensures Settled(SeatClipResult(r.spans, before + r.unclipped), i, j)
  {
    if Reported(r.unclipped, r.spans[i], r.spans[j]) {
      var k :| 0 <= k < |r.unclipped| && Reports(r.unclipped[k], r.spans[i], r.spans[j]);
      assert (before + r.unclipped)[|before| + k] == r.unclipped[k];
    }
  }

  lemma StepSettles(w: seq<TenureSpan>, p: Pair, capacity: Capacity)
    requires AllValid(w) && Rivals(w, p.0, p.1)
    ensures Settled(SeatClipResult(PairStep(w, p, capacity), Refusal(w, p, capacity)), p.0, p.1)
    ensures Settled(SeatClipResult(PairStep(w, p, capacity), Refusal(w, p, capacity)), p.1, p.0)
  {
    var a, b := w[p.0], w[p.1];
    var r := ResolvedPair(a, b, capacity);
    PairSettles(a, b, capacity);
    PairNarrows(a, b, capacity);
    OverlapsMeans(r.a, r.b); OverlapsMeans(r.b, r.a);
    hide Overlaps, ResolvedPair;
    if r.reason.Some? {
      var refusal := Refusal(w, p, capacity);
      assert Reports(refusal[0], r.a, r.b) && Reports(refusal[0], r.b, r.a);
    }
  }

  lemma {:induction false} HandoffsSettle(w: seq<TenureSpan>, pairs: seq<Pair>, capacity: Capacity, i: nat, j: nat)
    requires Within(pairs, |w|) && AllValid(w) && Rivals(w, i, j)
    requires (i, j) in pairs || (j, i) in pairs
    ensures Settled(Handoffs(w, pairs, capacity), i, j)
    decreases |pairs|
  {
    hide PairStep, Settled, Rivals, AllValid, ValidlyClipped, Refusal;
    var p, v := pairs[0], PairStep(w, pairs[0], capacity);
    var refusal, rest := Refusal(w, p, capacity), Handoffs(v, pairs[1..], capacity);
    StepNarrows(w, p, capacity);
    ClipStepsNarrow(capacity);
    if p == (i, j) || p == (j, i) {
      RivalsAre(w, i, j);
      StepSettles(w, p, capacity);
      HandoffsInduction(ValidlyClipped, v, pairs[1..], capacity);
      RivalsRemain(w, v, i, j);
      SettledPersists(v, rest.spans, refusal, rest.unclipped, i, j);
    } else {
      RivalsRemain(w, v, i, j);
      HandoffsSettle(v, pairs[1..], capacity, i, j);
      SettledEarlier(rest, refusal, i, j);
    }
  }

  lemma RivalsAre(w: seq<TenureSpan>, i: nat, j: nat)
    requires Rivals(w, i, j)
    ensures Rivals(w, j, i) && i < |w| && j < |w|
  {
  }

  lemma {:induction false} PairsMeet(ordered: seq<nat>, i: nat, j: nat)
    requires i in ordered && j in ordered && i != j
    ensures (i, j) in PairsOf(ordered) || (j, i) in PairsOf(ordered)
  {
    if ordered[0] == i {
      RowMeets(i, ordered[1..], j);
    } else if ordered[0] == j {
      RowMeets(j, ordered[1..], i);
    } else {
      PairsMeet(ordered[1..], i, j);
    }
  }

  lemma {:induction false} RowMeets(i: nat, rest: seq<nat>, j: nat)
    requires j in rest
    ensures (i, j) in Row(i, rest)
  {
    if rest[0] != j { RowMeets(i, rest[1..], j); }
  }

  ghost predicate OnSeat(w: seq<TenureSpan>, i: nat, seat: (string, string)) {
    i < |w| && OfSeat(seat)(w[i])
  }

  lemma {:induction false} SeatPassSettles(w: seq<TenureSpan>, seats: seq<(string, string)>, capacity: Capacity, seat: (string, string), i: nat, j: nat)
    requires AllValid(w) && Rivals(w, i, j) && OnSeat(w, i, seat) && OnSeat(w, j, seat) && seat in seats
    ensures Settled(SeatPass(w, seats, capacity), i, j)
    decreases |seats|
  {
    var pairs := SeatPairs(w, seats[0]);
    var first := Handoffs(w, pairs, capacity);
    var rest := SeatPass(first.spans, seats[1..], capacity);
    if seats[0] == seat {
      OrderedDistinct(w, OfSeat(seat), MemberTie);
      PairsMeet(Ordered(w, OfSeat(seat), MemberTie), i, j);
      HandoffsSettle(w, pairs, capacity, i, j);
    }
    hide Settled, Handoffs, SeatPairs, SeatPass;
    ClipStepsNarrow(capacity);
    HandoffsInduction(ValidlyClipped, w, pairs, capacity);
    RivalsRemain(w, first.spans, i, j);
    if seats[0] == seat {
      SeatPassInduction(ValidlyClipped, first.spans, seats[1..], capacity);
      SettledPersists(first.spans, rest.spans, first.unclipped, rest.unclipped, i, j);
    } else {
      SeatPassSettles(first.spans, seats[1..], capacity, seat, i, j);
      SettledEarlier(rest, first.unclipped, i, j);
    }
    SeatPassUnfolds(w, seats, capacity);
  }

  lemma SeatPassUnfolds(w: seq<TenureSpan>, seats: seq<(string, string)>, capacity: Capacity)
    requires seats != []
    ensures var first := Handoffs(w, SeatPairs(w, seats[0]), capacity);
            var rest := SeatPass(first.spans, seats[1..], capacity);
            SeatPass(w, seats, capacity) == SeatClipResult(rest.spans, first.unclipped + rest.unclipped)
  {
    hide Handoffs, SeatPairs;
  }

  lemma SeatsCover(w: seq<TenureSpan>, i: nat)
    requires i < |w| && SingleHolder(w[i]) && w[i].membership == Principal
    ensures w[i].Seat() in SeatsOf(w)
  {
    var s := w[i];
    var ds := SortedTexts(set t | t in w && t.kind == s.kind && SingleHolder(t) && t.membership == Principal :: t.discriminator);
    assert s in w && s.discriminator in ds;
    var k :| 0 <= k < |ds| && ds[k] == s.discriminator;
    assert Seats(s.kind, ds)[k] == s.Seat();
  }

  /** The residue is exhaustive: two different members' principal tenures of one
      single-holder seat come out of the clip not overlapping or named in what it could
      not clip, unless one of them states an edge to a window only and the other does not
      state the edge across from it to the day. */
  lemma ResidueIsExhaustive(spans: seq<TenureSpan>, capacity: Capacity, i: nat, j: nat)
    requires AllValid(spans) && i < |spans| && j < |spans|
    requires spans[i].kind in {KIND_SENATE, KIND_HOUSE} && spans[i].membership == spans[j].membership == Principal
    requires spans[i].Seat() == spans[j].Seat() && spans[i].memberId != spans[j].memberId
    requires Firm(spans[i], spans[j])
    ensures var r := Clipped(spans, capacity);
            !Overlaps(r.spans[i], r.spans[j]) || Reported(r.unclipped, spans[i], spans[j])
  {
    hide MemberPass, SeatPass, SeatsOf, MembersOf, Narrower, AllValid, Overlaps;
    var moved := MemberPass(spans, MembersOf(spans));
    ClipStepsNarrow(capacity);
    MemberPassInduction(ValidlyClipped, spans, MembersOf(spans));
    RivalsRemain(spans, moved, i, j);
    SameSeatAfter(spans, moved, i);
    SameSeatAfter(spans, moved, j);
    SeatsCover(moved, i);
    SeatPassSettles(moved, SeatsOf(moved), capacity, spans[i].Seat(), i, j);
    ClipOnlyNarrows(spans, capacity);
    SameSeatAfter(spans, Clipped(spans, capacity).spans, i);
    SameSeatAfter(spans, Clipped(spans, capacity).spans, j);
  }

  lemma SameSeatAfter(u: seq<TenureSpan>, v: seq<TenureSpan>, i: nat)
    requires AllValid(u) && ValidlyClipped(u, v) && i < |u|
    ensures |v| == |u| && v[i].Seat() == u[i].Seat() && v[i].memberId == u[i].memberId
    ensures v[i].membership == u[i].membership && SingleHolder(v[i]) == SingleHolder(u[i])
  {
  }

  lemma SeatPairsMeetThere(w: seq<TenureSpan>, seat: (string, string), p: Pair)
    requires p in SeatPairs(w, seat)
    ensures OnSeat(w, p.0, seat) && OnSeat(w, p.1, seat)
  {
    PairMembers(Ordered(w, OfSeat(seat), MemberTie), p);
    OrderedDistinct(w, OfSeat(seat), MemberTie);
  }
}
