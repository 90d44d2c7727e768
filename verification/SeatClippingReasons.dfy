/** What the clip reports, and why. */
module SeatClippingReasons {
  import opened Ordering
  import opened Terms
  import opened Tenure
  import opened SeatClipping
  import opened SeatClippingNarrows
  import opened SeatClippingResidue
  import opened SeatClippingSettles

  // ----- When each reason is given

  /** The predecessor's stated end decides the handoff: the successor states no start, or
      one to a window only, and the end is a day of that window. */
  predicate ExitDecides(pred: TenureSpan, succ: TenureSpan) {
    && pred.endBasis == Dated
    && (StatedStart(succ) ==>
          DayEnd(pred) && !DayStart(succ) && succ.validFrom <= pred.EndOrOpen() <= succ.ValidFromLatest())
  }

  /** The successor's stated start decides it, the other way about. */
  predicate EntryDecides(pred: TenureSpan, succ: TenureSpan)
    requires pred.Valid()
  {
    && StatedStart(succ)
    && (pred.endBasis == Dated ==>
          DayStart(succ) && !DayEnd(pred) && StatedExit(pred).value <= succ.validFrom <= pred.EndOrOpen())
  }

  /** What each reason for declining a handoff says of the two tenures. */
  predicate Warranted(reason: Reason, pred: TenureSpan, succ: TenureSpan)
    requires pred.Valid()
  {
    match reason
    case BothDated =>
      pred.endBasis == Dated && StatedStart(succ) && !ExitDecides(pred, succ) && !EntryDecides(pred, succ)
    case NeitherDated => pred.endBasis != Dated && !StatedStart(succ)
    case StartLeavesBiennium =>
      ExitDecides(pred, succ) && !InBiennium(Max(StatedExit(pred).value, succ.validFrom), succ.startBiennium)
    case PredecessorOutlivesSuccessor =>
      || (EntryDecides(pred, succ) && pred.EndOrOpen() > succ.EndOrOpen())
      || (&& ExitDecides(pred, succ) && succ.validTo.Some?
          && InBiennium(Max(StatedExit(pred).value, succ.validFrom), succ.startBiennium)
          && Max(StatedExit(pred).value, succ.validFrom) >= succ.validTo.value)
    case Degenerate =>
      EntryDecides(pred, succ) && pred.EndOrOpen() <= succ.EndOrOpen()
      && DayStart(succ) && pred.validFrom == succ.validFrom
    case MultiHolderPeriod => false
  }

  /** A handoff is declined for a reason exactly when that reason is warranted: above all,
      a closing is degenerate exactly when both tenures start on one stated day. */
  lemma ReasonMeans(pred: TenureSpan, succ: TenureSpan, reason: Reason)
    requires pred.Valid() && succ.Valid() && Overlaps(pred, succ) && TenureLe(pred, succ)
    ensures Handoff(pred, succ).reason == Some(reason) <==> Warranted(reason, pred, succ)
  {
    OverlapsMeans(pred, succ);
    LatestIsLater(succ);
    hide InBiennium, ClosedAt, OpenedAt, Overlaps;
    hide TenureSpan.ValidFromLatest, BienniumEnd, BienniumStart;
  }

  lemma LatestIsLater(s: TenureSpan)
    requires s.Valid()
    ensures s.validFrom <= s.ValidFromLatest()
  {
  }

  /** A seat admits two holders over an overlap exactly when some day of both tenures falls
      in a period that the capacity table gives more than one holder, or no limit. */
  lemma AdmitsTwoMeans(capacity: Capacity, a: TenureSpan, b: TenureSpan)
    requires Overlaps(a, b) && a.validFrom <= a.EndOrOpen() && b.validFrom <= b.EndOrOpen() && ProperPeriods(capacity, a.Seat())
    ensures MultiHolder(capacity, a, b)
       <==> a.Seat() in capacity && exists k, x :: 0 <= k < |capacity[a.Seat()]| && TwoOn(capacity[a.Seat()][k], a, b, x)
  {
    OverlapsMeans(a, b);
    hide Overlaps;
    if a.Seat() in capacity {
      var periods := capacity[a.Seat()];
      forall k | 0 <= k < |periods| ensures Admits(periods[k], Max(a.validFrom, b.validFrom), Min(a.EndOrOpen(), b.EndOrOpen()))
                                       <==> exists x :: TwoOn(periods[k], a, b, x)
      {
        AdmitsMeans(periods[k], a, b);
      }
      hide Admits, TwoOn;
      if MultiHolder(capacity, a, b) {
        var k :| 0 <= k < |periods| && Admits(periods[k], Max(a.validFrom, b.validFrom), Min(a.EndOrOpen(), b.EndOrOpen()));
        var x :| TwoOn(periods[k], a, b, x);
      }
    }
  }

  /** No period of the seat ends before it starts. */
  ghost predicate ProperPeriods(capacity: Capacity, seat: (string, string)) {
    seat in capacity ==> forall k :: 0 <= k < |capacity[seat]| ==>
      (capacity[seat][k].validTo.Some? ==> capacity[seat][k].validFrom <= capacity[seat][k].validTo.value)
  }

  /** On that day both hold, and the period allows it. */
  predicate TwoOn(p: CapacityPeriod, a: TenureSpan, b: TenureSpan, x: Date) {
    && a.Covers(x) && b.Covers(x)
    && p.validFrom <= x && (p.validTo.Some? ==> x <= p.validTo.value)
    && (p.maxHolders.Some? ==> p.maxHolders.value > 1)
  }

  lemma AdmitsMeans(p: CapacityPeriod, a: TenureSpan, b: TenureSpan)
    requires a.validFrom < b.EndOrOpen() && b.validFrom < a.EndOrOpen() && a.validFrom <= a.EndOrOpen() && b.validFrom <= b.EndOrOpen()
    requires p.validTo.Some? ==> p.validFrom <= p.validTo.value
    ensures Admits(p, Max(a.validFrom, b.validFrom), Min(a.EndOrOpen(), b.EndOrOpen())) <==> exists x :: TwoOn(p, a, b, x)
  {
    var day := Max(p.validFrom, Max(a.validFrom, b.validFrom));
    if Admits(p, Max(a.validFrom, b.validFrom), Min(a.EndOrOpen(), b.EndOrOpen())) { assert TwoOn(p, a, b, day); }
  }

  /** The two overlap and the rule declines to part them, for that reason. */
  predicate Declined(a: TenureSpan, b: TenureSpan, capacity: Capacity, reason: Reason)
    requires a.Valid() && b.Valid()
  {
    && Overlaps(a, b)
    && if MultiHolder(capacity, a, b) then reason == MultiHolderPeriod
       else if TenureLe(a, b) then Warranted(reason, a, b) else Warranted(reason, b, a)
  }

  lemma DeclinedMeans(a: TenureSpan, b: TenureSpan, capacity: Capacity, reason: Reason)
    requires a.Valid() && b.Valid() && a.memberId != b.memberId
    ensures ResolvedPair(a, b, capacity).reason == Some(reason) <==> Declined(a, b, capacity, reason)
  {
    OverlapsMeans(a, b);
    OverlapsMeans(b, a);
    hide Handoff, Warranted, MultiHolder, Overlaps;
    if Overlaps(a, b) {
      if TenureLe(a, b) { ReasonMeans(a, b, reason); } else { ReasonMeans(b, a, reason); }
    }
  }

  // ----- Every report is real

  lemma {:induction false} HandoffReportsAreReal(spans: seq<TenureSpan>, w: seq<TenureSpan>, pairs: seq<Pair>, capacity: Capacity, k: nat)
    requires AllValid(spans) && ClippedFrom(spans, w) && AllValid(w) && Within(pairs, |w|)
    requires k < |Handoffs(w, pairs, capacity).unclipped|
    ensures exists p :: p in pairs && RealOverlap(spans, capacity, Handoffs(w, pairs, capacity).unclipped[k], p)
    decreases |pairs|
  {
    hide PairStep, RealOverlap, ClippedFrom, AllValid, Refusal;
    var p, v := pairs[0], PairStep(w, pairs[0], capacity);
    var refusal, all := Refusal(w, p, capacity), Handoffs(w, pairs, capacity).unclipped;
    if k < |refusal| {
      RefusalIsReal(spans, w, p, capacity);
      assert p in pairs && RealOverlap(spans, capacity, all[k], p);
    } else {
      StepNarrows(w, p, capacity);
      ClippedFromTransitive(spans, w, v);
      var rest := Handoffs(v, pairs[1..], capacity).unclipped;
      HandoffReportsAreReal(spans, v, pairs[1..], capacity, k - |refusal|);
      var q :| q in pairs[1..] && RealOverlap(spans, capacity, rest[k - |refusal|], q);
      assert all[k] == rest[k - |refusal|];
      assert q in pairs && RealOverlap(spans, capacity, all[k], q);
    }
  }

  ghost predicate RealOverlap(spans: seq<TenureSpan>, capacity: Capacity, u: UnclippedOverlap, p: Pair) {
    && p.0 < |spans| && p.1 < |spans|
    && spans[p.0].Seat() == u.seat
    && spans[p.0].memberId == u.memberA && spans[p.1].memberId == u.memberB && u.memberA != u.memberB
    && Overlaps(spans[p.0], spans[p.1])
    && exists c, d :: DeclinedAs(spans[p.0], spans[p.1], c, d, capacity, u.reason)
  }

  /** Narrowed to `c` and `d`, the two were declined for that reason. */
  ghost predicate DeclinedAs(a: TenureSpan, b: TenureSpan, c: TenureSpan, d: TenureSpan, capacity: Capacity, reason: Reason) {
    Narrower(a, c) && Narrower(b, d) && c.Valid() && d.Valid() && Declined(c, d, capacity, reason)
  }

  lemma RefusalIsReal(spans: seq<TenureSpan>, w: seq<TenureSpan>, p: Pair, capacity: Capacity)
    requires ClippedFrom(spans, w) && AllValid(w) && p.0 < |w| && p.1 < |w|
    ensures |Refusal(w, p, capacity)| <= 1
    ensures forall k :: 0 <= k < |Refusal(w, p, capacity)| ==> RealOverlap(spans, capacity, Refusal(w, p, capacity)[k], p)
  {
    var a, b := w[p.0], w[p.1];
    var reason := ResolvedPair(a, b, capacity).reason;
    if reason.Some? {
      assert a.memberId != b.memberId;
      DeclinedMeans(a, b, capacity, reason.value);
      ShrinkingMakesNoOverlap(spans[p.0], spans[p.1], a, b);
      hide Declined, ResolvedPair, Overlaps;
      assert DeclinedAs(spans[p.0], spans[p.1], a, b, capacity, reason.value);
    }
  }

  /** A real overlap between two principals' tenures of a single-holder seat. */
  ghost predicate RealPrincipals(spans: seq<TenureSpan>, capacity: Capacity, u: UnclippedOverlap, p: Pair) {
    RealOverlap(spans, capacity, u, p) && OnSeat(spans, p.0, u.seat) && OnSeat(spans, p.1, u.seat)
  }

  lemma OnItsSeat(spans: seq<TenureSpan>, w: seq<TenureSpan>, capacity: Capacity, u: UnclippedOverlap, p: Pair, seat: (string, string))
    requires ClippedFrom(spans, w) && RealOverlap(spans, capacity, u, p) && OnSeat(w, p.0, seat) && OnSeat(w, p.1, seat)
    ensures RealPrincipals(spans, capacity, u, p)
  {
    hide Overlaps;
  }

  lemma {:induction false} SeatPassReportsAreReal(spans: seq<TenureSpan>, w: seq<TenureSpan>, seats: seq<(string, string)>, capacity: Capacity, k: nat)
    requires AllValid(spans) && ClippedFrom(spans, w) && AllValid(w)
    requires k < |SeatPass(w, seats, capacity).unclipped|
    ensures exists p :: RealPrincipals(spans, capacity, SeatPass(w, seats, capacity).unclipped[k], p)
    decreases |seats|
  {
    hide RealOverlap, RealPrincipals, ClippedFrom, AllValid, Handoffs, SeatPairs;
    var first := Handoffs(w, SeatPairs(w, seats[0]), capacity);
    if k < |first.unclipped| {
      HandoffReportsAreReal(spans, w, SeatPairs(w, seats[0]), capacity, k);
      var p :| p in SeatPairs(w, seats[0]) && RealOverlap(spans, capacity, first.unclipped[k], p);
      SeatPairsMeetThere(w, seats[0], p);
      OnItsSeat(spans, w, capacity, first.unclipped[k], p, seats[0]);
      assert RealPrincipals(spans, capacity, SeatPass(w, seats, capacity).unclipped[k], p);
    } else {
      ClipStepsNarrow(capacity);
      HandoffsInduction(ValidlyClipped, w, SeatPairs(w, seats[0]), capacity);
      ClippedFromTransitive(spans, w, first.spans);
      var rest := SeatPass(first.spans, seats[1..], capacity);
      SeatPassReportsAreReal(spans, first.spans, seats[1..], capacity, k - |first.unclipped|);
      var p :| RealPrincipals(spans, capacity, rest.unclipped[k - |first.unclipped|], p);
      assert RealPrincipals(spans, capacity, SeatPass(w, seats, capacity).unclipped[k], p);
    }
  }

  /** Every report is of a real overlap: two different members' principal tenures of the
      reported seat overlapped in the input, and the reason given is warranted of what the
      pass had narrowed them to. */
  lemma ReportsAreReal(spans: seq<TenureSpan>, capacity: Capacity, k: nat)
    requires AllValid(spans) && k < |Clipped(spans, capacity).unclipped|
    ensures exists p :: RealPrincipals(spans, capacity, Clipped(spans, capacity).unclipped[k], p)
  {
    hide MemberPass, SeatPass, SeatsOf, MembersOf, AllValid, ClippedFrom, RealPrincipals;
    var moved := MemberPass(spans, MembersOf(spans));
    ClipStepsNarrow(capacity);
    MemberPassInduction(ValidlyClipped, spans, MembersOf(spans));
    SeatPassReportsAreReal(spans, moved, SeatsOf(moved), capacity, k);
  }
}
