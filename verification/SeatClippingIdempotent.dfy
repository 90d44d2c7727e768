/** When clipping twice is clipping once, told from the input. */
module SeatClippingIdempotent {
  import opened Ordering
  import opened Terms
  import opened Tenure
  import opened SeatClipping
  import opened SeatClippingNarrows
  import opened SeatClippingResidue
  import opened SeatClippingSettles
  import opened SeatClippingSecondPass

  // ----- Rivals for a seat

  predicate StatesADate(s: TenureSpan) { s.startBasis == Dated || s.endBasis == Dated }

  /** The two hold one single-holder seat as principals. */
  predicate OneSeatHolders(a: TenureSpan, b: TenureSpan) {
    && SingleHolder(a) && a.Seat() == b.Seat()
    && a.membership == Principal && b.membership == Principal
  }

  /** Two members' tenures of one seat that overlap, one of them stating some date. */
  predicate Contend(a: TenureSpan, b: TenureSpan) {
    && OneSeatHolders(a, b) && a.memberId != b.memberId
    && Overlaps(a, b) && (StatesADate(a) || StatesADate(b))
  }

  ghost predicate Contends(w: seq<TenureSpan>, i: nat, j: nat) {
    i < |w| && j < |w| && i != j && Contend(w[i], w[j])
  }

  /** Nobody contends with `i` or with `j` but these two with each other. */
  ghost predicate Alone(w: seq<TenureSpan>, i: nat, j: nat) {
    forall k: nat :: k != i && k != j ==> !Contends(w, i, k) && !Contends(w, j, k)
  }

  /** No tenure contends with two others. */
  ghost predicate Uncrowded(w: seq<TenureSpan>) {
    forall i: nat, j: nat, k: nat :: Contends(w, i, j) && Contends(w, i, k) ==> j == k
  }

  lemma ContendSymmetric(a: TenureSpan, b: TenureSpan)
    ensures Contend(a, b) == Contend(b, a)
  {
  }

  lemma ContendedBefore(a: TenureSpan, b: TenureSpan, c: TenureSpan, d: TenureSpan)
    requires Narrower(a, c) && Narrower(b, d) && Contend(c, d)
    ensures Contend(a, b)
  {
    ShrinkingMakesNoOverlap(a, b, c, d);
    hide Overlaps, TenureSpan.Valid, TenureSpan.Sound, TenureSpan.Windowless, TenureSpan.ValidFromLatest;
    hide DatedToTheDayAtStart, DatedToTheDayAtEnd;
  }

  /** Clipping brings no two tenures into contention. */
  lemma ContendsBefore(u: seq<TenureSpan>, v: seq<TenureSpan>, i: nat, j: nat)
    requires ClippedFrom(u, v) && Contends(v, i, j)
    ensures Contends(u, i, j)
  {
    ContendedBefore(u[i], u[j], v[i], v[j]);
    hide Narrower, Contend;
  }

  lemma AloneAfter(u: seq<TenureSpan>, v: seq<TenureSpan>, i: nat, j: nat)
    requires ClippedFrom(u, v) && Alone(u, i, j)
    ensures Alone(v, i, j)
  {
    hide Contends, ClippedFrom;
    forall k: nat | k != i && k != j ensures !Contends(v, i, k) && !Contends(v, j, k) {
      if Contends(v, i, k) { ContendsBefore(u, v, i, k); }
      if Contends(v, j, k) { ContendsBefore(u, v, j, k); }
    }
  }

  /** Two holders of one seat who do not contend are left as they are. */
  lemma NoContentionNoClip(a: TenureSpan, b: TenureSpan, capacity: Capacity)
    requires OneSeatHolders(a, b) && !Contend(a, b)
    ensures var r := ResolvedPair(a, b, capacity); r.a == a && r.b == b
  {
    hide Overlaps, MultiHolder, TenureLe, OpenSuccessor, ClosePredecessor;
  }

  // ----- Who goes first

  /** The order one seat's tenures are visited in. */
  predicate Ranked(a: TenureSpan, b: TenureSpan) {
    TenureLe(a, b) && (TenureLe(b, a) ==> KeyLe(MemberTie(a), MemberTie(b)))
  }

  lemma SeatPairsRanked(w: seq<TenureSpan>, seat: (string, string), p: Pair)
    requires p in SeatPairs(w, seat)
    ensures p.0 < |w| && p.1 < |w| && p.0 != p.1
    ensures Ranked(w[p.0], w[p.1])
  {
    var ordered, key := Ordered(w, OfSeat(seat), MemberTie), PositionKey(w, MemberTie);
    OrderedSorts(w, OfSeat(seat), MemberTie);
    OrderedDistinct(w, OfSeat(seat), MemberTie);
    DistinctPairs(ordered);
    PairMembers(ordered, p);
    PairsSorted(ordered, key, p);
    KeyLeMeans(w[p.0], w[p.1], MemberTie(w[p.0]), MemberTie(w[p.1]));
    hide SortBy;
  }

  lemma RankedOneWay(a: TenureSpan, b: TenureSpan)
    requires Ranked(a, b) && Ranked(b, a)
    ensures a.memberId == b.memberId
  {
    hide KeyLe;
    KeyLeTotal(MemberTie(a), MemberTie(b));
    assert MemberTie(a)[0] == Text(a.memberId) && MemberTie(b)[0] == Text(b.memberId);
  }

  lemma RankedSomeWay(a: TenureSpan, b: TenureSpan)
    ensures Ranked(a, b) || Ranked(b, a)
  {
    hide KeyLe;
    KeyLeTotal(MemberTie(a), MemberTie(b));
  }

  /** Resolving a pair keeps its rank. */
  lemma RankedAfter(a: TenureSpan, b: TenureSpan, capacity: Capacity)
    requires a.Valid() && b.Valid() && Ranked(a, b)
    ensures var r := ResolvedPair(a, b, capacity); Ranked(r.a, r.b)
  {
    var r := ResolvedPair(a, b, capacity);
    HandoffSettlesOnce(a, b);
    PairNarrows(a, b, capacity);
    SameMemberTie(a, r.a);
    SameMemberTie(b, r.b);
    hide Handoff, Overlaps, MultiHolder, KeyLe, Narrower, DatesFrom, TenureLe;
  }

  lemma SameMemberTie(a: TenureSpan, b: TenureSpan)
    requires Narrower(a, b)
    ensures MemberTie(a) == MemberTie(b)
  {
  }

  // ----- A pair nobody else touches

  /** The pairs of one seat, `(j, i)` not among them. */
  ghost predicate OnlyOf(w: seq<TenureSpan>, pairs: seq<Pair>, seat: (string, string), i: nat, j: nat) {
    forall p :: p in pairs ==> OnSeat(w, p.0, seat) && OnSeat(w, p.1, seat) && p.0 != p.1 && p != (j, i)
  }

  /** `i` and `j` have been resolved against each other, or left alone. */
  ghost predicate Became(w: seq<TenureSpan>, v: seq<TenureSpan>, i: nat, j: nat, resolved: bool, capacity: Capacity)
    requires i < |w| && j < |w|
  {
    && |v| == |w|
    && var r := ResolvedPair(w[i], w[j], capacity);
       if resolved then v[i] == r.a && v[j] == r.b else v[i] == w[i] && v[j] == w[j]
  }

  lemma OthersTouchNeither(w: seq<TenureSpan>, p: Pair, seat: (string, string), i: nat, j: nat, capacity: Capacity)
    requires i < |w| && j < |w| && i != j && Alone(w, i, j)
    requires OnSeat(w, p.0, seat) && OnSeat(w, p.1, seat) && p.0 != p.1 && p != (i, j) && p != (j, i)
    ensures Became(w, PairStep(w, p, capacity), i, j, false, capacity)
  {
    hide ResolvedPair, Contend;
    if p.0 in {i, j} || p.1 in {i, j} {
      assert !Contend(w[p.0], w[p.1]) by { OutsiderDoesNotContend(w, p, i, j); }
      NoContentionNoClip(w[p.0], w[p.1], capacity);
    }
  }

  lemma OutsiderDoesNotContend(w: seq<TenureSpan>, p: Pair, i: nat, j: nat)
    requires Alone(w, i, j) && p.0 < |w| && p.1 < |w| && p.0 != p.1 && p != (i, j) && p != (j, i)
    requires p.0 in {i, j} || p.1 in {i, j}
    ensures !Contend(w[p.0], w[p.1])
  {
    ContendSymmetric(w[p.0], w[p.1]);
    hide Contend;
    if p.0 in {i, j} {
      assert !Contends(w, p.0, p.1);
    } else {
      assert !Contends(w, p.1, p.0);
    }
  }

  lemma ItselfResolves(w: seq<TenureSpan>, i: nat, j: nat, capacity: Capacity)
    requires i < |w| && j < |w| && i != j
    ensures Became(w, PairStep(w, (i, j), capacity), i, j, true, capacity)
  {
    hide ResolvedPair;
  }

  lemma BecameTwice(w: seq<TenureSpan>, v: seq<TenureSpan>, u: seq<TenureSpan>, i: nat, j: nat, first: bool, second: bool, capacity: Capacity)
    requires i < |w| && j < |w| && w[i].Valid() && w[j].Valid() && w[i].Seat() == w[j].Seat()
    requires Became(w, v, i, j, first, capacity) && Became(v, u, i, j, second, capacity)
    ensures Became(w, u, i, j, first || second, capacity)
  {
    PairSettlesOnce(w[i], w[j], capacity);
    hide ResolvedPair, TenureSpan.Valid;
  }

  lemma OnlyOfAfter(w: seq<TenureSpan>, v: seq<TenureSpan>, pairs: seq<Pair>, seat: (string, string), i: nat, j: nat)
    requires ClippedFrom(w, v) && OnlyOf(w, pairs, seat, i, j) && pairs != []
    ensures OnlyOf(v, pairs[1..], seat, i, j)
  {
    hide DatedToTheDayAtStart, DatedToTheDayAtEnd, TenureSpan.Valid, TenureSpan.Sound, TenureSpan.Windowless;
    forall p | p in pairs[1..]
      ensures OnSeat(v, p.0, seat) && OnSeat(v, p.1, seat) && p.0 != p.1 && p != (j, i)
    {
      assert p in pairs;
      assert SameIdentity(w[p.0], v[p.0]) && SameIdentity(w[p.1], v[p.1]);
    }
  }

  /** `i` and `j` are two principals of one seat, on sound footing, with nobody else in
      contention and `i` ranked first. */
  ghost predicate Duo(w: seq<TenureSpan>, i: nat, j: nat) {
    && AllValid(w) && i < |w| && j < |w| && i != j
    && OneSeatHolders(w[i], w[j]) && Alone(w, i, j) && Ranked(w[i], w[j])
  }

  lemma DuoAfter(w: seq<TenureSpan>, v: seq<TenureSpan>, i: nat, j: nat, resolved: bool, capacity: Capacity)
    requires Duo(w, i, j) && AllValid(v) && ClippedFrom(w, v) && Became(w, v, i, j, resolved, capacity)
    ensures Duo(v, i, j)
  {
    AloneAfter(w, v, i, j);
    RankedAfter(w[i], w[j], capacity);
    assert OneSeatHolders(v[i], v[j]) by {
      assert SameIdentity(w[i], v[i]) && SameIdentity(w[j], v[j]);
    }
    hide Alone, ResolvedPair, Ranked, OneSeatHolders, Narrower, Stated;
  }

  lemma DuoIs(w: seq<TenureSpan>, i: nat, j: nat)
    requires Duo(w, i, j)
    ensures AllValid(w) && i < |w| && j < |w| && i != j && Alone(w, i, j)
    ensures w[i].Valid() && w[j].Valid() && w[i].Seat() == w[j].Seat()
  {
  }

  lemma DuoStep(w: seq<TenureSpan>, p: Pair, seat: (string, string), capacity: Capacity, i: nat, j: nat)
    requires Duo(w, i, j)
    requires OnSeat(w, p.0, seat) && OnSeat(w, p.1, seat) && p.0 != p.1 && p != (j, i)
    ensures Became(w, PairStep(w, p, capacity), i, j, p == (i, j), capacity)
  {
    hide Became, PairStep, Alone;
    if p == (i, j) { ItselfResolves(w, i, j, capacity); } else { OthersTouchNeither(w, p, seat, i, j, capacity); }
  }

  /** A seat's pairs resolve `i` and `j` against each other if they meet there, once and
      for all, and no other way. */
  lemma {:induction false} DuoThroughPairs(w: seq<TenureSpan>, pairs: seq<Pair>, seat: (string, string), capacity: Capacity, i: nat, j: nat)
    requires Within(pairs, |w|) && Duo(w, i, j) && OnlyOf(w, pairs, seat, i, j)
    ensures Became(w, Handoffs(w, pairs, capacity).spans, i, j, (i, j) in pairs, capacity)
    decreases |pairs|
  {
    hide Became, Duo, PairStep, OnlyOf, ClippedFrom, AllValid, Alone;
    DuoIs(w, i, j);
    if pairs == [] {
      BecameItself(w, i, j, capacity);
    } else {
      var p, v := pairs[0], PairStep(w, pairs[0], capacity);
      OnlyOfHead(w, pairs, seat, i, j);
      DuoStep(w, p, seat, capacity, i, j);
      StepNarrows(w, p, capacity);
      DuoAfter(w, v, i, j, p == (i, j), capacity);
      OnlyOfAfter(w, v, pairs, seat, i, j);
      DuoThroughPairs(v, pairs[1..], seat, capacity, i, j);
      BecameTwice(w, v, Handoffs(v, pairs[1..], capacity).spans, i, j, p == (i, j), (i, j) in pairs[1..], capacity);
      assert pairs == [p] + pairs[1..];
    }
  }

  lemma OnlyOfHead(w: seq<TenureSpan>, pairs: seq<Pair>, seat: (string, string), i: nat, j: nat)
    requires OnlyOf(w, pairs, seat, i, j) && pairs != []
    ensures var p := pairs[0]; OnSeat(w, p.0, seat) && OnSeat(w, p.1, seat) && p.0 != p.1 && p != (j, i)
  {
    hide OnSeat;
  }

  lemma BecameItself(w: seq<TenureSpan>, i: nat, j: nat, capacity: Capacity)
    requires i < |w| && j < |w|
    ensures Became(w, w, i, j, false, capacity)
  {
    hide ResolvedPair;
  }

  lemma SeatPairsOnlyOf(w: seq<TenureSpan>, seat: (string, string), i: nat, j: nat)
    requires Duo(w, i, j) && w[i].memberId != w[j].memberId
    ensures OnlyOf(w, SeatPairs(w, seat), seat, i, j)
  {
    hide SeatPairs, AllValid, Ranked, Alone;
    forall p | p in SeatPairs(w, seat)
      ensures OnSeat(w, p.0, seat) && OnSeat(w, p.1, seat) && p.0 != p.1 && p != (j, i)
    {
      SeatPairsMeetThere(w, seat, p);
      SeatPairsRanked(w, seat, p);
      if p == (j, i) { RankedOneWay(w[i], w[j]); }
    }
  }

  /** They meet on their own seat and nowhere else. */
  lemma DuoMeets(w: seq<TenureSpan>, seat: (string, string), i: nat, j: nat)
    requires Duo(w, i, j) && w[i].memberId != w[j].memberId
    ensures (i, j) in SeatPairs(w, seat) <==> seat == w[i].Seat()
  {
    SeatPairsOnlyOf(w, seat, i, j);
    OrderedDistinct(w, OfSeat(seat), MemberTie);
    if seat == w[i].Seat() {
      PairsMeet(Ordered(w, OfSeat(seat), MemberTie), i, j);
    } else if (i, j) in SeatPairs(w, seat) {
      SeatPairsMeetThere(w, seat, (i, j));
    }
  }

  lemma SameDuo(w: seq<TenureSpan>, v: seq<TenureSpan>, i: nat)
    requires ClippedFrom(w, v) && i < |w|
    ensures |v| == |w| && v[i].memberId == w[i].memberId && v[i].Seat() == w[i].Seat() && v[i].membership == w[i].membership
  {
    assert SameIdentity(w[i], v[i]);
  }

  lemma {:induction false} DuoThroughSeats(w: seq<TenureSpan>, seats: seq<(string, string)>, capacity: Capacity, i: nat, j: nat)
    requires Duo(w, i, j) && w[i].memberId != w[j].memberId
    ensures Became(w, SeatPass(w, seats, capacity).spans, i, j, w[i].Seat() in seats, capacity)
    ensures Duo(SeatPass(w, seats, capacity).spans, i, j)
    decreases |seats|
  {
    hide Became, Duo, Handoffs, SeatPairs, OnlyOf, ClippedFrom, AllValid, Alone;
    DuoIs(w, i, j);
    if seats == [] {
      BecameItself(w, i, j, capacity);
    } else {
      var seat := seats[0];
      var v := Handoffs(w, SeatPairs(w, seat), capacity).spans;
      SeatPairsOnlyOf(w, seat, i, j);
      DuoThroughPairs(w, SeatPairs(w, seat), seat, capacity, i, j);
      DuoMeets(w, seat, i, j);
      ClipStepsNarrow(capacity);
      HandoffsInduction(ValidlyClipped, w, SeatPairs(w, seat), capacity);
      DuoAfter(w, v, i, j, seat == w[i].Seat(), capacity);
      SameDuo(w, v, i);
      SameDuo(w, v, j);
      DuoThroughSeats(v, seats[1..], capacity, i, j);
      BecameTwice(w, v, SeatPass(v, seats[1..], capacity).spans, i, j, seat == w[i].Seat(), v[i].Seat() in seats[1..], capacity);
      assert seats == [seat] + seats[1..];
    }
  }

  // ----- The whole pass

  lemma DuoResolved(w: seq<TenureSpan>, v: seq<TenureSpan>, i: nat, j: nat, capacity: Capacity)
    requires Duo(w, i, j) && Became(w, v, i, j, true, capacity)
    ensures PairStep(v, (i, j), capacity) == v
  {
    PairSettlesOnce(w[i], w[j], capacity);
    hide ResolvedPair, Alone, AllValid;
  }

  /** A pair of which neither contends with a third is at rest after the seat axis. */
  lemma AlonePairRests(w: seq<TenureSpan>, capacity: Capacity, seat: (string, string), p: Pair)
    requires AllValid(w) && Alone(w, p.0, p.1)
    requires p in SeatPairs(SeatPass(w, SeatsOf(w), capacity).spans, seat)
    ensures var out := SeatPass(w, SeatsOf(w), capacity).spans; PairStep(out, p, capacity) == out
  {
    hide AllValid, ClippedFrom, SeatPass, SeatsOf, SeatPairs, Alone, Became, Duo, Ranked;
    var out := SeatPass(w, SeatsOf(w), capacity).spans;
    ClipStepsNarrow(capacity);
    SeatPassInduction(ValidlyClipped, w, SeatsOf(w), capacity);
    SeatPairsMeetThere(out, seat, p);
    SeatPairsRanked(out, seat, p);
    SameDuo(w, out, p.0);
    SameDuo(w, out, p.1);
    if w[p.0].memberId == w[p.1].memberId {
      SameMemberRests(out, p, capacity);
    } else {
      RankedSomeWay(w[p.0], w[p.1]);
      SeatsCover(w, p.0);
      SeatsCover(w, p.1);
      if Ranked(w[p.0], w[p.1]) {
        DuoHere(w, p.0, p.1);
        DuoThroughSeats(w, SeatsOf(w), capacity, p.0, p.1);
        DuoResolved(w, out, p.0, p.1, capacity);
      } else {
        AloneTurned(w, p.0, p.1);
        DuoHere(w, p.1, p.0);
        DuoThroughSeats(w, SeatsOf(w), capacity, p.1, p.0);
        DuoRanked(out, p.1, p.0);
        RankedOneWay(out[p.0], out[p.1]);
      }
    }
  }

  lemma DuoHere(w: seq<TenureSpan>, i: nat, j: nat)
    requires AllValid(w) && i < |w| && j < |w| && i != j && Alone(w, i, j) && Ranked(w[i], w[j])
    requires SingleHolder(w[i]) && w[i].Seat() == w[j].Seat() && w[i].membership == Principal && w[j].membership == Principal
    ensures Duo(w, i, j)
  {
    hide AllValid, Alone, Ranked;
  }

  lemma AloneTurned(w: seq<TenureSpan>, i: nat, j: nat)
    requires Alone(w, i, j)
    ensures Alone(w, j, i)
  {
    hide Contends;
  }

  lemma DuoRanked(w: seq<TenureSpan>, i: nat, j: nat)
    requires Duo(w, i, j)
    ensures i < |w| && j < |w| && Ranked(w[i], w[j])
  {
    hide Ranked;
  }

  lemma SameMemberRests(w: seq<TenureSpan>, p: Pair, capacity: Capacity)
    requires p.0 < |w| && p.1 < |w| && w[p.0].memberId == w[p.1].memberId
    ensures PairStep(w, p, capacity) == w
  {
  }

  lemma StillRests(w: seq<TenureSpan>, seat: (string, string), p: Pair, capacity: Capacity)
    requires p in SeatPairs(w, seat) && !Contends(w, p.0, p.1)
    ensures PairStep(w, p, capacity) == w
  {
    SeatPairsMeetThere(w, seat, p);
    SeatPairsRanked(w, seat, p);
    NoContentionNoClip(w[p.0], w[p.1], capacity);
    hide ResolvedPair, Overlaps;
  }

  /** What a second pass would clip, the input tells: if any pair is clipped again, the
      two contended in the input, and one of them contended with a third tenure too. */
  lemma ClippedAgainOnlyInACrowd(spans: seq<TenureSpan>, capacity: Capacity, seat: (string, string), p: Pair)
    requires AllValid(spans)
    requires p in SeatPairs(Clipped(spans, capacity).spans, seat)
    requires PairStep(Clipped(spans, capacity).spans, p, capacity) != Clipped(spans, capacity).spans
    ensures Contends(spans, p.0, p.1) && !Alone(spans, p.0, p.1)
  {
    hide AllValid, ClippedFrom, MemberPass, SeatPass, SeatsOf, MembersOf, SeatPairs, PairStep, Alone, Contends;
    var moved := MemberPass(spans, MembersOf(spans));
    var out := Clipped(spans, capacity).spans;
    ClipStepsNarrow(capacity);
    MemberPassInduction(ValidlyClipped, spans, MembersOf(spans));
    ClipOnlyNarrows(spans, capacity);
    if !Contends(spans, p.0, p.1) {
      if Contends(out, p.0, p.1) { ContendsBefore(spans, out, p.0, p.1); }
      StillRests(out, seat, p, capacity);
    }
    if Alone(spans, p.0, p.1) {
      AloneAfter(spans, moved, p.0, p.1);
      AlonePairRests(moved, capacity, seat, p);
    }
  }

  lemma UncrowdedIsAlone(w: seq<TenureSpan>, i: nat, j: nat)
    requires Uncrowded(w) && Contends(w, i, j)
    ensures Alone(w, i, j)
  {
    ContendSymmetric(w[i], w[j]);
    hide Contend;
    assert Contends(w, j, i);
  }

  /** Clipping twice is clipping once, on every input of which no principal's tenure
      contends with two others for its seat. */
  lemma IdempotentUnlessCrowded(spans: seq<TenureSpan>, capacity: Capacity)
    requires AllValid(spans) && Uncrowded(spans)
    ensures AtRest(Clipped(spans, capacity).spans, capacity)
  {
    hide AllValid, MemberPass, SeatPass, SeatsOf, MembersOf, SeatPairs, PairStep, Alone, Contends, Uncrowded;
    var out := Clipped(spans, capacity).spans;
    ClipOnlyNarrows(spans, capacity);
    MemberAxisSettles(spans, capacity);
    forall seat, p | seat in SeatsOf(out) && p in SeatPairs(out, seat) ensures PairStep(out, p, capacity) == out {
      if PairStep(out, p, capacity) != out {
        ClippedAgainOnlyInACrowd(spans, capacity, seat, p);
        UncrowdedIsAlone(spans, p.0, p.1);
      }
    }
    SeatPassRests(out, SeatsOf(out), capacity);
  }
}
