/** What a clip does when it does something: a member's move between seats, and a handoff
    between members. */
module SeatClippingMoves {
  import opened Ordering
  import opened Terms
  import opened Tenure
  import opened SeatClipping
  import opened SeatClippingNarrows
  import opened SeatClippingResidue
  import opened SeatClippingReasons
  import opened SeatClippingSettles
  import opened SeatClippingSecondPass

  /** The last day a stated start can be. */
  function LatestStart(s: TenureSpan): Date {
    if s.startWindowEnd.Some? then s.startWindowEnd.value else s.validFrom
  }

  /** The first day a stated end can be. */
  function EarliestEnd(s: TenureSpan): int {
    if s.endWindowStart.Some? then s.endWindowStart.value else s.EndOrOpen()
  }

  /** `r` is `s` closed on `day`, which no source states of it; a window of its start that
      the closing cuts ends there, or shrinks to its first day and is none. */
  predicate ClosedOn(s: TenureSpan, day: int, r: TenureSpan) {
    && r == s.(validTo := r.validTo, isActive := false, endBasis := Derived,
               startWindowEnd := r.startWindowEnd, endWindowStart := None)
    && r.validTo.Some? && r.validTo.value == day
    && (s.startWindowEnd.None? ==> r.startWindowEnd.None?)
    && (s.startWindowEnd.Some? ==> LatestStart(r) == if s.startWindowEnd.value < day then s.startWindowEnd.value else day)
    && r.startWindowEnd != Some(r.validFrom)
  }

  /** `r` is `s` opened on `day`, in the same way. */
  predicate OpenedOn(s: TenureSpan, day: int, r: TenureSpan) {
    && r == s.(validFrom := r.validFrom, startBasis := Derived, startWindowEnd := None, endWindowStart := r.endWindowStart)
    && r.validFrom == day
    && (s.endWindowStart.None? ==> r.endWindowStart.None?)
    && (s.endWindowStart.Some? ==> EarliestEnd(r) == if day < s.endWindowStart.value then s.endWindowStart.value else day)
    && (r.endWindowStart.Some? ==> r.endWindowStart != r.validTo)
  }

  // ----- One move

  /** `old_` and `new_` are tenures of two seats, overlapping; the end of the one is only
      observed, the start of the other stated, after the one began; and the one does not
      outlive the other. */
  predicate MoveDue(old_: TenureSpan, new_: TenureSpan) {
    && (old_.kind, old_.discriminator) != (new_.kind, new_.discriminator)
    && old_.validFrom < new_.EndOrOpen() && new_.validFrom < old_.EndOrOpen()
    && old_.endBasis == Tenure.Observed && new_.startBasis == Dated
    && old_.validFrom < LatestStart(new_) && old_.validFrom < old_.EndOrOpen()
    && old_.EndOrOpen() <= new_.EndOrOpen()
  }

  /** The day a move closes the old seat: the last the new start can be, or the old end if
      that comes first. */
  function HandoffDay(old_: TenureSpan, new_: TenureSpan): int {
    if LatestStart(new_) < old_.EndOrOpen() then LatestStart(new_) else old_.EndOrOpen()
  }

  /** A move is made exactly when it is due, and then the old seat is closed on its day. */
  lemma MoveMeans(old_: TenureSpan, new_: TenureSpan)
    requires old_.Valid() && new_.Valid()
    ensures ResolvedMove(old_, new_) != old_ <==> MoveDue(old_, new_)
    ensures MoveDue(old_, new_) ==> ClosedOn(old_, HandoffDay(old_, new_), ResolvedMove(old_, new_))
  {
    OverlapsMeans(old_, new_);
    hide Overlaps, BienniumStart, BienniumEnd;
  }

  // ----- The member axis, after the whole pass

  /** The order one member's tenures are visited in. */
  predicate Earlier(a: TenureSpan, b: TenureSpan) {
    || a.validFrom < b.validFrom
    || (a.validFrom == b.validFrom
        && (a.EndOrOpen() < b.EndOrOpen() || (a.EndOrOpen() == b.EndOrOpen() && KeyLe(SeatTie(a), SeatTie(b)))))
  }

  lemma MembersCover(w: seq<TenureSpan>, i: nat)
    requires i < |w| && SingleHolder(w[i])
    ensures w[i].memberId in MembersOf(w)
  {
    var all := set s | s in w && SingleHolder(s) :: s.memberId;
    assert w[i] in w;
    assert w[i].memberId in all;
  }

  lemma MemberPairsMeet(w: seq<TenureSpan>, i: nat, j: nat)
    requires i < |w| && j < |w| && i != j
    requires SingleHolder(w[i]) && SingleHolder(w[j]) && w[i].memberId == w[j].memberId
    requires (w[i].kind, w[i].discriminator) != (w[j].kind, w[j].discriminator) && Earlier(w[i], w[j])
    ensures (i, j) in MemberPairs(w, w[i].memberId)
  {
    var m := w[i].memberId;
    OrderedDistinct(w, OfMember(m), SeatTie);
    PairsMeet(Ordered(w, OfMember(m), SeatTie), i, j);
    hide KeyLe, SeatTie, Ordered;
    if (j, i) in MemberPairs(w, m) {
      MemberPairsSorted(w, m, (j, i));
      if TenureLe(w[i], w[j]) && KeyLe(SeatTie(w[i]), SeatTie(w[j])) && KeyLe(SeatTie(w[j]), SeatTie(w[i])) {
        SeatTieApart(w[i], w[j]);
      }
    }
  }

  /** One member's tenures of two single-holder seats come out of the whole pass with no
      move between them still due: if they still overlap, it is because the earlier one's
      end or the later one's start does not say what a move needs, or the earlier one
      outlives the later. */
  lemma NoMoveStaysDue(spans: seq<TenureSpan>, capacity: Capacity, i: nat, j: nat)
    requires AllValid(spans) && i < |spans| && j < |spans| && i != j
    requires var out := Clipped(spans, capacity).spans;
             && out[i].kind in {KIND_SENATE, KIND_HOUSE} && out[j].kind in {KIND_SENATE, KIND_HOUSE}
             && out[i].memberId == out[j].memberId && Earlier(out[i], out[j])
    ensures var out := Clipped(spans, capacity).spans; !MoveDue(out[i], out[j])
  {
    hide Clipped, MemberPass, MembersOf, MemberPairs, Earlier, MoveStep;
    var out := Clipped(spans, capacity).spans;
    ClipOnlyNarrows(spans, capacity);
    assert out[i].Valid() && out[j].Valid();
    hide AllValid, ClippedFrom;
    if MoveDue(out[i], out[j]) {
      MemberAxisSettles(spans, capacity);
      MemberPassRests(out, MembersOf(out), capacity);
      MembersCover(out, i);
      MemberPairsMeet(out, i, j);
      MoveMeans(out[i], out[j]);
      NoStepNoMove(out, (i, j));
    }
  }

  lemma NoStepNoMove(w: seq<TenureSpan>, p: Pair)
    requires p.0 < |w| && p.1 < |w| && MoveStep(w, p) == w
    ensures ResolvedMove(w[p.0], w[p.1]) == w[p.0]
  {
    hide ResolvedMove;
    assert MoveStep(w, p)[p.0] == ResolvedMove(w[p.0], w[p.1]);
  }

  // ----- One handoff

  /** A handoff that is not declined moves one edge, and to which day: the successor opens
      on the first day the predecessor can have left, if it had not begun by then; or the
      predecessor closes on the last day the successor can have come, or on its own end. */
  lemma HandoffMeans(pred: TenureSpan, succ: TenureSpan)
    requires pred.Valid() && succ.Valid() && Overlaps(pred, succ) && TenureLe(pred, succ)
    requires Handoff(pred, succ).reason.None?
    ensures var h := Handoff(pred, succ);
            if ExitDecides(pred, succ) then
              h.a == pred && OpenedOn(succ, if EarliestEnd(pred) < succ.validFrom then succ.validFrom else EarliestEnd(pred), h.b)
            else
              EntryDecides(pred, succ) && h.b == succ && ClosedOn(pred, HandoffDay(pred, succ), h.a)
  {
    if ExitDecides(pred, succ) { OpensTheSuccessor(pred, succ); } else { ClosesThePredecessor(pred, succ); }
  }

  lemma OpensTheSuccessor(pred: TenureSpan, succ: TenureSpan)
    requires pred.Valid() && succ.Valid() && ExitDecides(pred, succ) && Handoff(pred, succ).reason.None?
    ensures var h := Handoff(pred, succ);
            h.a == pred && OpenedOn(succ, if EarliestEnd(pred) < succ.validFrom then succ.validFrom else EarliestEnd(pred), h.b)
  {
    hide InBiennium, BienniumStart, BienniumEnd;
  }

  lemma ClosesThePredecessor(pred: TenureSpan, succ: TenureSpan)
    requires pred.Valid() && succ.Valid() && Overlaps(pred, succ) && TenureLe(pred, succ) && !ExitDecides(pred, succ)
    requires Handoff(pred, succ).reason.None?
    ensures EntryDecides(pred, succ) && Handoff(pred, succ).b == succ && ClosedOn(pred, HandoffDay(pred, succ), Handoff(pred, succ).a)
  {
    OverlapsMeans(pred, succ);
    hide Overlaps, OpenSuccessor, BienniumStart, BienniumEnd;
  }
}
