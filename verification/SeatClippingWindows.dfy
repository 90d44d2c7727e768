/** Tenures with windows: which overlaps the pass leaves standing without a word. */
module SeatClippingWindows {
  import opened Ordering
  import opened Terms
  import opened Tenure
  import opened SeatClipping
  import opened SeatClippingNarrows
  import opened SeatClippingResidue
  import opened SeatClippingSettles
  import opened SeatClippingSecondPass
  import opened SeatClippingIdempotent

  /** One pair's ruling, told by what is left of the overlap. */
  lemma RulingLeaves(a: TenureSpan, b: TenureSpan, capacity: Capacity)
    requires a.Valid() && b.Valid() && a.memberId != b.memberId && TenureLe(a, b)
    ensures var r := ResolvedPair(a, b, capacity);
            Overlaps(r.a, r.b) <==> Overlaps(a, b) && (r.reason.Some? || LooselyStated(a, b))
  {
    var r := ResolvedPair(a, b, capacity);
    hide Handoff, Overlaps, MultiHolder, LooselyStated;
    if Overlaps(a, b) && !MultiHolder(capacity, a, b) {
      if r.reason.None? { ResolvedHandoffTouches(a, b); } else { RefusedUntouched(a, b); }
    }
  }

  /** The exact residue of a pair, after the whole pass: two principals of one seat with
      nobody else in contention come out as their own ruling left them, and still overlap
      exactly when it declined to part them or had only a window to go by. */
  lemma AlonePairOverlapsExactly(spans: seq<TenureSpan>, capacity: Capacity, i: nat, j: nat)
    requires AllValid(spans) && Duo(MemberPass(spans, MembersOf(spans)), i, j)
    requires spans[i].memberId != spans[j].memberId
    ensures var moved := MemberPass(spans, MembersOf(spans));
            var out, r := Clipped(spans, capacity).spans, ResolvedPair(moved[i], moved[j], capacity);
            && out[i] == r.a && out[j] == r.b
            && (Overlaps(out[i], out[j]) <==> Overlaps(moved[i], moved[j]) && (r.reason.Some? || LooselyStated(moved[i], moved[j])))
  {
    hide AllValid, ClippedFrom, MemberPass, SeatPass, SeatsOf, MembersOf, Duo, Overlaps, LooselyStated, Ranked;
    var moved := MemberPass(spans, MembersOf(spans));
    ClipStepsNarrow(capacity);
    MemberPassInduction(ValidlyClipped, spans, MembersOf(spans));
    DuoIs(moved, i, j);
    SameDuo(spans, moved, i);
    SameDuo(spans, moved, j);
    DuoRanked(moved, i, j);
    DuoCovered(moved, i, j);
    DuoThroughSeats(moved, SeatsOf(moved), capacity, i, j);
    RankedFirst(moved[i], moved[j]);
    RulingLeaves(moved[i], moved[j], capacity);
    hide ResolvedPair;
  }

  lemma RankedFirst(a: TenureSpan, b: TenureSpan)
    requires Ranked(a, b)
    ensures TenureLe(a, b)
  {
  }

  lemma DuoCovered(w: seq<TenureSpan>, i: nat, j: nat)
    requires Duo(w, i, j)
    ensures w[i].Seat() in SeatsOf(w)
  {
    SeatsCover(w, i);
    hide SeatsOf;
  }

  // ----- Two tenures and nobody else

  ghost predicate TwoHolders(w: seq<TenureSpan>) {
    |w| == 2 && SeatMates(w) && AllValid(w) && Ranked(w[0], w[1])
  }

  lemma TwoAreADuo(w: seq<TenureSpan>)
    requires TwoHolders(w)
    ensures Duo(w, 0, 1) && SeatPairs(w, LD) == [(0, 1)]
  {
    hide Ranked, AllValid, Contend;
    assert Alone(w, 0, 1);
    DuoMeets(w, LD, 0, 1);
    OnePair(w);
    hide Duo, SeatMates, SeatPairs;
  }

  lemma OnePair(w: seq<TenureSpan>)
    requires |w| == 2
    ensures |SeatPairs(w, LD)| <= 1
  {
    var ordered := Ordered(w, OfSeat(LD), MemberTie);
    OrderedDistinct(w, OfSeat(LD), MemberTie);
    hide Ordered;
    AtMostTwo(ordered);
    if |ordered| == 2 {
      assert ordered[1..] == [ordered[1]] && [ordered[1]][1..] == [];
      assert PairsOf([ordered[1]]) == [];
      assert Row(ordered[0], [ordered[1]]) == [(ordered[0], ordered[1])];
    } else if |ordered| == 1 {
      assert ordered[1..] == [] && Row(ordered[0], []) + PairsOf([]) == [];
    }
  }

  lemma AtMostTwo(s: seq<nat>)
    requires Distinct(s) && forall i: nat :: i in s ==> i < 2
    ensures |s| <= 2
  {
    var both: set<nat> := {0, 1};
    forall k | 0 <= k < |s| ensures s[k] in both { assert s[k] in s; }
    DistinctWithin(s, both);
  }

  /** The whole pass over two holders of a seat is its one ruling and its one report. */
  lemma TwoHoldersClipped(w: seq<TenureSpan>, capacity: Capacity)
    requires TwoHolders(w)
    ensures Clipped(w, capacity) == SeatClipResult(PairStep(w, (0, 1), capacity), Refusal(w, (0, 1), capacity))
  {
    hide PairStep, Refusal, Clipped, SeatPairs, AllValid, SeatMates, Ranked;
    TwoAreADuo(w);
    ClipOfOneSeat(w, capacity);
    var v := PairStep(w, (0, 1), capacity);
    assert [(0, 1)][1..] == [];
    assert Handoffs(v, [], capacity) == SeatClipResult(v, []);
    assert Refusal(w, (0, 1), capacity) + [] == Refusal(w, (0, 1), capacity);
  }

  predicate SilentOverlap(r: SeatClipResult) {
    |r.spans| == 2 && Overlaps(r.spans[0], r.spans[1]) && r.unclipped == []
  }

  /** Two holders of a seat come out of the pass overlapping and unreported exactly when
      they overlapped and the ruling that parted them had only a window to go by. */
  lemma SilentOverlapExactly(w: seq<TenureSpan>, capacity: Capacity)
    requires TwoHolders(w)
    ensures SilentOverlap(Clipped(w, capacity))
       <==> Overlaps(w[0], w[1]) && LooselyStated(w[0], w[1]) && ResolvedPair(w[0], w[1], capacity).reason.None?
  {
    TwoHoldersClipped(w, capacity);
    RankedFirst(w[0], w[1]);
    RulingLeaves(w[0], w[1], capacity);
    hide Clipped, ResolvedPair, Overlaps, LooselyStated, Ranked;
  }

  /** P left on some day from the 100th to the 300th; Q is only observed. */
  function LeftInAWindow(): seq<TenureSpan> {
    [ TenureSpan("P", KIND_SENATE, "ld-1", 1, 1, 1, Some(300), false, Observed, Dated, Principal, None, Some(100)),
      TenureSpan("Q", KIND_SENATE, "ld-1", 1, 1, 50, Some(600), false, Observed, Observed, Principal, None, None) ]
  }

  /** Q is opened on P's earliest exit, day 100; P's latest is day 300; nothing is
      reported, and the two still overlap. */
  lemma WindowLeavesSilentOverlap()
    ensures forall k :: 0 <= k < |LeftInAWindow()| ==> LeftInAWindow()[k].Sound()
    ensures SilentOverlap(Clipped(LeftInAWindow(), map[]))
  {
    LeftInAWindowIs();
    SilentOverlapExactly(LeftInAWindow(), map[]);
    hide *;
  }

  lemma LeftInAWindowIs()
    ensures forall k :: 0 <= k < |LeftInAWindow()| ==> LeftInAWindow()[k].Sound()
    ensures TwoHolders(LeftInAWindow())
    ensures var w := LeftInAWindow();
            Overlaps(w[0], w[1]) && LooselyStated(w[0], w[1]) && ResolvedPair(w[0], w[1], map[]).reason.None?
  {
    var p, q := LeftInAWindow()[0], LeftInAWindow()[1];
    BothSound(p, q);
    RulingInAWindow(p, q);
    hide TenureSpan.Sound, Overlaps, LooselyStated, ResolvedPair, BienniumOf, KeyLe;
  }

  lemma BothSound(p: TenureSpan, q: TenureSpan)
    requires [p, q] == LeftInAWindow()
    ensures p.Sound() && q.Sound()
  {
    FirstBiennium(1);
    FirstBiennium(50);
    hide BienniumOf;
  }

  lemma RulingInAWindow(p: TenureSpan, q: TenureSpan)
    requires [p, q] == LeftInAWindow()
    ensures Overlaps(p, q) && LooselyStated(p, q) && ResolvedPair(p, q, map[]).reason.None?
  {
    FirstBiennium(100);
    BienniumWindow(100, 1);
    hide BienniumOf, YearOf, Jan1, InBiennium;
  }
}
