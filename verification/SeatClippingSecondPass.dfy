/** What a second pass over the clip's own output can and cannot do. */
module SeatClippingSecondPass {
  import opened Ordering
  import opened Terms
  import opened Tenure
  import opened SeatClipping
  import opened SeatClippingNarrows
  import opened SeatClippingResidue
  import opened SeatClippingSettles

  // ----- Holders of one seat

  const LD: (string, string) := (KIND_SENATE, "ld-1")

  /** Principals of one seat, each of another member. */
  ghost predicate SeatMates(w: seq<TenureSpan>) {
    && w != []
    && (forall k :: 0 <= k < |w| ==> w[k].Seat() == LD && w[k].membership == Principal)
    && (forall i, j :: 0 <= i < |w| && 0 <= j < |w| && i != j ==> w[i].memberId != w[j].memberId)
  }

  lemma AloneInGroup(w: seq<TenureSpan>, m: string)
    requires SeatMates(w)
    ensures MemberPairs(w, m) == []
  {
    var ordered := Ordered(w, OfMember(m), SeatTie);
    OrderedDistinct(w, OfMember(m), SeatTie);
    hide Ordered;
    if |ordered| >= 2 {
      assert false;
    } else if |ordered| == 1 {
      assert ordered[1..] == [] && Row(ordered[0], []) + PairsOf([]) == [];
    }
  }

  lemma NobodyMoves(w: seq<TenureSpan>)
    requires SeatMates(w) && AllValid(w)
    ensures MemberPass(w, MembersOf(w)) == w
  {
    hide MoveStep, MemberPass, MembersOf, MemberPairs;
    forall m ensures MemberPairs(w, m) == [] { AloneInGroup(w, m); }
    MemberPassRests(w, MembersOf(w), map[]);
  }

  lemma OneSeat(w: seq<TenureSpan>)
    requires SeatMates(w)
    ensures SeatsOf(w) == [LD]
  {
    var house := set s | s in w && s.kind == KIND_HOUSE && SingleHolder(s) && s.membership == Principal :: s.discriminator;
    var senate := set s | s in w && s.kind == KIND_SENATE && SingleHolder(s) && s.membership == Principal :: s.discriminator;
    assert forall s :: s in w ==> s.Seat() == LD;
    assert w[0] in w && w[0].discriminator == "ld-1";
    assert house == {} && senate == {"ld-1"};
    assert SortedTexts(senate) == ["ld-1"];
    assert SortedTexts(house) == [];
  }

  lemma ClipOfOneSeat(w: seq<TenureSpan>, capacity: Capacity)
    requires SeatMates(w) && AllValid(w)
    ensures Clipped(w, capacity) == Handoffs(w, SeatPairs(w, LD), capacity)
  {
    hide MemberPass, SeatPass, SeatsOf, MembersOf, Handoffs, SeatPairs;
    NobodyMoves(w);
    OneSeat(w);
    SeatPassOfOne(w, capacity);
  }

  lemma SeatPassOfOne(w: seq<TenureSpan>, capacity: Capacity)
    ensures SeatPass(w, [LD], capacity) == Handoffs(w, SeatPairs(w, LD), capacity)
  {
    hide Handoffs, SeatPairs;
    var first := Handoffs(w, SeatPairs(w, LD), capacity);
    assert [LD][1..] == [];
    assert SeatPass(first.spans, [], capacity) == SeatClipResult(first.spans, []);
    assert first.unclipped + [] == first.unclipped;
  }

  // ----- Three holders, and a second pass that still clips

  predicate ThreeHolders(w: seq<TenureSpan>) {
    && |w| == 3
    && w[0].memberId != w[1].memberId && w[0].memberId != w[2].memberId && w[1].memberId != w[2].memberId
    && (forall k :: 0 <= k < 3 ==> w[k].Seat() == LD && w[k].membership == Principal)
    && w[0].validFrom < w[1].validFrom < w[2].validFrom
  }

  lemma ThreeAreMates(w: seq<TenureSpan>)
    requires ThreeHolders(w)
    ensures SeatMates(w)
  {
  }

  lemma OldestFirst(w: seq<TenureSpan>)
    requires ThreeHolders(w)
    ensures Ordered(w, OfSeat(LD), MemberTie) == [0, 1, 2]
  {
    hide Ordered, SortedBy, KeyedApart, PositionKey;
    var ordered, key := Ordered(w, OfSeat(LD), MemberTie), PositionKey(w, MemberTie);
    var expected: seq<nat> := [0, 1, 2];
    AllThree(w, ordered, expected);
    ThreeKeys(w, expected);
    OrderedSorts(w, OfSeat(LD), MemberTie);
    SortedUnique(expected, ordered, key);
  }

  lemma AllThree(w: seq<TenureSpan>, ordered: seq<nat>, expected: seq<nat>)
    requires ThreeHolders(w) && ordered == Ordered(w, OfSeat(LD), MemberTie) && expected == [0, 1, 2]
    ensures multiset(ordered) == multiset(expected)
  {
    OrderedDistinct(w, OfSeat(LD), MemberTie);
    hide Ordered;
    assert forall i: nat :: i in expected <==> i < 3;
    DistinctSameElements(ordered, expected);
  }

  lemma ThreeKeys(w: seq<TenureSpan>, expected: seq<nat>)
    requires ThreeHolders(w) && expected == [0, 1, 2]
    ensures var key := PositionKey(w, MemberTie); SortedBy(expected, key) && KeyedApart(expected, key)
  {
    var key := PositionKey(w, MemberTie);
    forall i, j | 0 <= i < j < 3 ensures KeyLe(key(expected[i]), key(expected[j])) {
      assert key(expected[i])[0] == Num(w[i].validFrom) && key(expected[j])[0] == Num(w[j].validFrom);
    }
    forall i, j | 0 <= i < 3 && 0 <= j < 3 && key(expected[i]) == key(expected[j]) ensures expected[i] == expected[j] {
      assert key(expected[i])[0] == Num(w[i].validFrom) && key(expected[j])[0] == Num(w[j].validFrom);
    }
  }

  lemma ThreePairs(w: seq<TenureSpan>)
    requires ThreeHolders(w)
    ensures SeatPairs(w, LD) == [(0, 1), (0, 2), (1, 2)]
  {
    OldestFirst(w);
    hide Ordered;
    var expected: seq<nat> := [0, 1, 2];
    assert expected[1..] == [1, 2] && expected[1..][1..] == [2] && expected[1..][1..][1..] == [];
    assert PairsOf([2]) == [] by { assert [2][1..] == []; }
    assert PairsOf(expected[1..]) == [(1, 2)];
    assert PairsOf(expected) == [(0, 1), (0, 2), (1, 2)];
  }

  /** Where every start but the first tenure's is stated to the day, and no end is, a
      pair's later start closes the earlier tenure that it reaches into. */
  predicate StartsDecide(w: seq<TenureSpan>) {
    && ThreeHolders(w)
    && (forall k :: 0 <= k < 3 ==> w[k].Windowless() && w[k].endBasis != Dated && w[k].validFrom <= w[k].EndOrOpen())
    && StatedStart(w[1]) && StatedStart(w[2])
  }

  predicate ReachesInto(a: TenureSpan, b: TenureSpan) {
    b.validFrom < a.EndOrOpen() <= b.EndOrOpen()
  }

  function CutAt(a: TenureSpan, b: TenureSpan): TenureSpan {
    if ReachesInto(a, b) then ClosedAt(a, b.validFrom) else a
  }

  predicate LaterHolder(a: TenureSpan, b: TenureSpan) {
    && a.memberId != b.memberId && a.Seat() == b.Seat() && a.validFrom < b.validFrom
    && a.Windowless() && b.Windowless() && b.validFrom <= b.EndOrOpen()
    && a.endBasis != Dated && StatedStart(b)
  }

  lemma LaterHolderCuts(a: TenureSpan, b: TenureSpan)
    requires LaterHolder(a, b)
    ensures ResolvedPair(a, b, map[]).a == CutAt(a, b) && ResolvedPair(a, b, map[]).b == b
    ensures CutAt(a, b) == a <==> !ReachesInto(a, b)
  {
    OverlapsMeans(a, b);
    hide BienniumEnd, BienniumStart, InBiennium, Overlaps, DayStart, DayEnd;
  }

  lemma CutStays(a: TenureSpan, b: TenureSpan, c: TenureSpan)
    requires LaterHolder(a, b) && LaterHolder(a, c)
    ensures LaterHolder(CutAt(a, b), c) && CutAt(a, b).Seat() == a.Seat()
  {
  }

  lemma CutPair(w: seq<TenureSpan>, p: Pair)
    requires p.0 < |w| && p.1 < |w| && LaterHolder(w[p.0], w[p.1])
    ensures PairStep(w, p, map[]) == w[p.0 := CutAt(w[p.0], w[p.1])]
    ensures PairStep(w, p, map[]) == w <==> !ReachesInto(w[p.0], w[p.1])
  {
    LaterHolderCuts(w[p.0], w[p.1]);
    hide ResolvedPair, CutAt, ReachesInto, LaterHolder;
    var cut := CutAt(w[p.0], w[p.1]);
    assert w[p.0 := cut][p.1 := w[p.1]] == w[p.0 := cut];
    assert w[p.0 := cut][p.0] == cut;
  }

  function CutOnce(w: seq<TenureSpan>): seq<TenureSpan>
    requires |w| == 3
  {
    [CutAt(CutAt(w[0], w[1]), w[2]), CutAt(w[1], w[2]), w[2]]
  }

  lemma LaterHolders(w: seq<TenureSpan>)
    requires StartsDecide(w)
    ensures LaterHolder(w[0], w[1]) && LaterHolder(w[0], w[2]) && LaterHolder(w[1], w[2])
  {
  }

  lemma CutOnceDecides(w: seq<TenureSpan>)
    requires StartsDecide(w)
    ensures StartsDecide(CutOnce(w))
  {
  }

  lemma FirstPassCuts(w: seq<TenureSpan>)
    requires StartsDecide(w) && AllValid(w)
    ensures Clipped(w, map[]).spans == CutOnce(w)
  {
    hide PairStep, SeatPairs, AllValid, CutAt, LaterHolder, Clipped;
    ThreeAreMates(w);
    ClipOfOneSeat(w, map[]);
    ThreePairs(w);
    LaterHolders(w);
    CutPair(w, (0, 1));
    var u := w[0 := CutAt(w[0], w[1])];
    CutStays(w[0], w[1], w[2]);
    CutPair(u, (0, 2));
    var v := u[0 := CutAt(u[0], u[2])];
    CutPair(v, (1, 2));
    HandoffsOfThree(w, u, v);
    assert v[1 := CutAt(v[1], v[2])] == CutOnce(w);
  }

  lemma RestsUncut(w: seq<TenureSpan>)
    requires StartsDecide(w) && AllValid(w)
    ensures AtRest(w, map[]) <==> !SomeoneReaches(w)
  {
    hide PairStep, SeatPairs, AllValid, LaterHolder, Clipped, ReachesInto, Handoffs;
    ThreeAreMates(w);
    ClipOfOneSeat(w, map[]);
    ThreePairs(w);
    LaterHolders(w);
    CutPair(w, (0, 1));
    CutPair(w, (0, 2));
    CutPair(w, (1, 2));
    HandoffsRest(w, SeatPairs(w, LD), map[]);
    EachOfThree((p: Pair) => p.0 < |w| && p.1 < |w| && PairStep(w, p, map[]) == w);
  }

  lemma EachOfThree(f: Pair -> bool)
    ensures var pairs: seq<Pair> := [(0, 1), (0, 2), (1, 2)];
            (forall p :: p in pairs ==> f(p)) <==> f((0, 1)) && f((0, 2)) && f((1, 2))
  {
    var pairs: seq<Pair> := [(0, 1), (0, 2), (1, 2)];
    assert pairs[0] in pairs && pairs[1] in pairs && pairs[2] in pairs;
  }

  /** The least crowd there is, and exactly when it is clipped again: three holders of
      one seat in the order they were seated, the later two seated on stated days. P is
      declined against Q, which P outlives; R then closes P at its own seating, inside Q's
      tenure or on its last day; and P, no longer outliving Q, is closed at Q's seating
      by a second pass. */
  lemma ThreeClippedAgainExactly(w: seq<TenureSpan>)
    requires StartsDecide(w) && AllValid(w)
    ensures !AtRest(Clipped(w, map[]).spans, map[])
       <==> w[2].validFrom <= w[1].EndOrOpen() < w[0].EndOrOpen() <= w[2].EndOrOpen()
  {
    hide AllValid, AtRest, Clipped, CutOnce;
    FirstPassCuts(w);
    CutOnceDecides(w);
    ClipOnlyNarrows(w, map[]);
    RestsUncut(CutOnce(w));
    CutTwice(w);
  }

  predicate SomeoneReaches(w: seq<TenureSpan>)
    requires |w| == 3
  {
    ReachesInto(w[0], w[1]) || ReachesInto(w[0], w[2]) || ReachesInto(w[1], w[2])
  }

  lemma CutTwice(w: seq<TenureSpan>)
    requires StartsDecide(w)
    ensures SomeoneReaches(CutOnce(w))
       <==> w[2].validFrom <= w[1].EndOrOpen() < w[0].EndOrOpen() <= w[2].EndOrOpen()
  {
  }

  function Holder(member: string, from: Date, to: Date, basis: Basis): TenureSpan {
    TenureSpan(member, KIND_SENATE, "ld-1", 1, 1, from, Some(to), false, basis, Observed, Principal, None, None)
  }

  function ThreeTenures(): seq<TenureSpan> {
    [Holder("P", 1, 100, Observed), Holder("Q", 10, 60, Dated), Holder("R", 50, 100, Dated)]
  }

  /** The pass is not idempotent, on sound spans of one biennium. */
  lemma SecondPassCanClip()
    ensures forall k :: 0 <= k < |ThreeTenures()| ==> ThreeTenures()[k].Sound()
    ensures !AtRest(Clipped(ThreeTenures(), map[]).spans, map[])
  {
    SoundHolders();
    ThreeClippedAgainExactly(ThreeTenures());
    hide *;
  }

  lemma SoundHolders()
    ensures forall k :: 0 <= k < |ThreeTenures()| ==> ThreeTenures()[k].Sound()
    ensures AllValid(ThreeTenures()) && StartsDecide(ThreeTenures())
    ensures ThreeTenures()[2].validFrom <= ThreeTenures()[1].EndOrOpen() < ThreeTenures()[0].EndOrOpen() <= ThreeTenures()[2].EndOrOpen()
  {
    EachHolderSound();
    hide TenureSpan.Sound, BienniumOf, BienniumStart, BienniumEnd;
  }

  lemma EachHolderSound()
    ensures forall k :: 0 <= k < |ThreeTenures()| ==> ThreeTenures()[k].Sound()
  {
    FirstBiennium(1);
    FirstBiennium(10);
    FirstBiennium(50);
    hide BienniumOf, BienniumStart, BienniumEnd;
  }

  /** Days 1 to 600 fall in the first biennium there is. */
  lemma FirstBiennium(d: Date)
    requires d <= 600
    ensures BienniumOf(d) == 1
  {
    YearUnique(d, 1);
    YearUnique(d, 2);
  }

  lemma HandoffsOfThree(w: seq<TenureSpan>, u: seq<TenureSpan>, v: seq<TenureSpan>)
    requires |w| == |u| == |v| == 3 && PairStep(w, (0, 1), map[]) == u && PairStep(u, (0, 2), map[]) == v
    ensures Handoffs(w, [(0, 1), (0, 2), (1, 2)], map[]).spans == PairStep(v, (1, 2), map[])
  {
    hide PairStep;
    var pairs: seq<Pair> := [(0, 1), (0, 2), (1, 2)];
    assert pairs[1..] == [(0, 2), (1, 2)] && pairs[1..][1..] == [(1, 2)] && pairs[1..][1..][1..] == [];
    assert Handoffs(v, pairs[1..][1..], map[]).spans == PairStep(v, (1, 2), map[]);
    assert Handoffs(u, pairs[1..], map[]).spans == Handoffs(v, pairs[1..][1..], map[]).spans;
  }

  // ----- The member axis, settled by one pass

  /** Narrowing both tenures, as the clip does, gives no new reason to close the old one. */
  lemma DeclinedMoveStaysDeclined(a: TenureSpan, b: TenureSpan, c: TenureSpan, d: TenureSpan)
    requires ResolvedMove(a, b) == a && Narrower(a, c) && Narrower(b, d)
    ensures ResolvedMove(c, d) == c
  {
    OverlapsMeans(a, b);
    OverlapsMeans(c, d);
    hide Overlaps, TenureSpan.ValidFromLatest, TenureSpan.Valid, TenureSpan.Sound;
    hide DatedToTheDayAtStart, DatedToTheDayAtEnd, TenureSpan.Windowless;
  }

  /** `i`'s tenure is not closed at `j`'s seating. */
  ghost predicate StaysPut(w: seq<TenureSpan>, p: Pair) {
    p.0 < |w| && p.1 < |w| && ResolvedMove(w[p.0], w[p.1]) == w[p.0]
  }

  lemma StaysPutOnward(u: seq<TenureSpan>, v: seq<TenureSpan>, p: Pair)
    requires ClippedFrom(u, v) && StaysPut(u, p)
    ensures StaysPut(v, p)
  {
    DeclinedMoveStaysDeclined(u[p.0], u[p.1], v[p.0], v[p.1]);
    hide ResolvedMove, Narrower;
  }

  lemma {:induction false} MovesLeavePut(w: seq<TenureSpan>, pairs: seq<Pair>, p: Pair)
    requires AllValid(w) && Within(pairs, |w|) && p in pairs && p.0 != p.1
    ensures StaysPut(Moves(w, pairs), p)
    decreases |pairs|
  {
    hide AllValid, ClippedFrom, ResolvedMove;
    var v := MoveStep(w, pairs[0]);
    StepNarrows(w, pairs[0], map[]);
    ClipStepsNarrow(map[]);
    if p == pairs[0] {
      MoveSettlesOnce(w[p.0], w[p.1]);
      assert StaysPut(v, p);
      MovesInduction(ValidlyClipped, v, pairs[1..]);
      StaysPutOnward(v, Moves(v, pairs[1..]), p);
    } else {
      MovesLeavePut(v, pairs[1..], p);
    }
  }

  /** The spans `u` on which the pass sorted one member's tenures: each pair it formed
      there stays put from then on. */
  ghost predicate SortedAt(u: seq<TenureSpan>, v: seq<TenureSpan>, m: string) {
    AllValid(u) && ClippedFrom(u, v) && forall p :: p in MemberPairs(u, m) ==> StaysPut(v, p)
  }

  lemma MemberPairsDistinct(u: seq<TenureSpan>, m: string)
    ensures forall p :: p in MemberPairs(u, m) ==> p.0 != p.1
  {
    OrderedDistinct(u, OfMember(m), SeatTie);
    DistinctPairs(Ordered(u, OfMember(m), SeatTie));
  }

  lemma {:induction false} DistinctPairs(ordered: seq<nat>)
    requires Distinct(ordered)
    ensures forall p :: p in PairsOf(ordered) ==> p.0 != p.1
  {
    if ordered != [] {
      DistinctPairs(ordered[1..]);
      forall p | p in Row(ordered[0], ordered[1..]) ensures p.0 != p.1 {
        RowMembers(ordered[0], ordered[1..], p);
      }
    }
  }

  lemma {:induction false} MemberPassLeavesPut(w: seq<TenureSpan>, members: seq<string>, m: string) returns (u: seq<TenureSpan>)
    requires AllValid(w) && m in members
    ensures SortedAt(u, MemberPass(w, members), m)
    decreases |members|
  {
    hide AllValid, ClippedFrom, Moves, MemberPairs, StaysPut;
    var pairs := MemberPairs(w, members[0]);
    var v := Moves(w, pairs);
    ClipStepsNarrow(map[]);
    MovesInduction(ValidlyClipped, w, pairs);
    MemberPassInduction(ValidlyClipped, v, members[1..]);
    if m == members[0] {
      u := w;
      MemberPairsDistinct(w, m);
      ClippedFromTransitive(w, v, MemberPass(v, members[1..]));
      forall p | p in pairs ensures StaysPut(MemberPass(w, members), p) {
        MovesLeavePut(w, pairs, p);
        StaysPutOnward(v, MemberPass(v, members[1..]), p);
      }
    } else {
      u := MemberPassLeavesPut(v, members[1..], m);
    }
  }

  lemma {:induction false} PairsSorted(ordered: seq<nat>, key: nat -> SortKey, p: Pair)
    requires SortedBy(ordered, key) && p in PairsOf(ordered)
    ensures KeyLe(key(p.0), key(p.1))
  {
    if p in Row(ordered[0], ordered[1..]) {
      RowMembers(ordered[0], ordered[1..], p);
    } else {
      PairsSorted(ordered[1..], key, p);
    }
  }

  /** A sort key is compared date by date, then by its tie-break. */
  lemma KeyLeMeans(a: TenureSpan, b: TenureSpan, s: SortKey, t: SortKey)
    ensures KeyLe([Num(a.validFrom), Num(a.EndOrOpen())] + s, [Num(b.validFrom), Num(b.EndOrOpen())] + t)
       <==> (|| a.validFrom < b.validFrom
             || (a.validFrom == b.validFrom && (a.EndOrOpen() < b.EndOrOpen() || (a.EndOrOpen() == b.EndOrOpen() && KeyLe(s, t)))))
  {
    var x, y := [Num(a.validFrom), Num(a.EndOrOpen())] + s, [Num(b.validFrom), Num(b.EndOrOpen())] + t;
    assert x[1..] == [Num(a.EndOrOpen())] + s && y[1..] == [Num(b.EndOrOpen())] + t;
    assert x[1..][1..] == s && y[1..][1..] == t;
  }

  lemma MemberPairsSorted(w: seq<TenureSpan>, m: string, p: Pair)
    requires p in MemberPairs(w, m)
    ensures p.0 < |w| && p.1 < |w|
    ensures TenureLe(w[p.0], w[p.1])
    ensures TenureLe(w[p.1], w[p.0]) ==> KeyLe(SeatTie(w[p.0]), SeatTie(w[p.1]))
  {
    var ordered, key := Ordered(w, OfMember(m), SeatTie), PositionKey(w, SeatTie);
    OrderedSorts(w, OfMember(m), SeatTie);
    PairMembers(ordered, p);
    PairsSorted(ordered, key, p);
    KeyLeMeans(w[p.0], w[p.1], SeatTie(w[p.0]), SeatTie(w[p.1]));
    hide SortBy;
  }

  lemma SeatTieApart(a: TenureSpan, b: TenureSpan)
    requires KeyLe(SeatTie(a), SeatTie(b)) && KeyLe(SeatTie(b), SeatTie(a))
    ensures a.Seat() == b.Seat()
  {
    KeyLeTotal(SeatTie(a), SeatTie(b));
    assert SeatTie(a)[0] == SeatTie(b)[0] && SeatTie(a)[1] == SeatTie(b)[1];
  }

  /** A pair the first pass ranked the other way round is not a move either: what turned
      the two about is a derived start, or they are one seat. */
  lemma TurnedPairStaysPut(u: seq<TenureSpan>, v: seq<TenureSpan>, m: string, p: Pair)
    requires ClippedFrom(u, v) && (p.1, p.0) in MemberPairs(u, m) && p in MemberPairs(v, m)
    ensures StaysPut(v, p)
  {
    MemberPairsSorted(u, m, (p.1, p.0));
    MemberPairsSorted(v, m, p);
    var a, b, c, d := u[p.0], u[p.1], v[p.0], v[p.1];
    assert Narrower(a, c) && Narrower(b, d);
    hide TenureSpan.ValidFromLatest, TenureSpan.Valid, TenureSpan.Sound, Overlaps, ClosedAt, KeyLe;
    hide DatedToTheDayAtStart, DatedToTheDayAtEnd, TenureSpan.Windowless, MemberPairs;
    if ResolvedMove(c, d) != c {
      assert c.validTo == a.validTo && d.validFrom == b.validFrom;
      SeatTieApart(a, b);
    }
  }

  lemma SamePairsEitherWay(u: seq<TenureSpan>, v: seq<TenureSpan>, m: string, p: Pair)
    requires ClippedFrom(u, v) && p in MemberPairs(v, m)
    ensures p in MemberPairs(u, m) || (p.1, p.0) in MemberPairs(u, m)
  {
    MemberPairsDistinct(v, m);
    PairMembers(Ordered(v, OfMember(m), SeatTie), p);
    OrderedDistinct(v, OfMember(m), SeatTie);
    OrderedDistinct(u, OfMember(m), SeatTie);
    assert SameIdentity(u[p.0], v[p.0]) && SameIdentity(u[p.1], v[p.1]);
    PairsMeet(Ordered(u, OfMember(m), SeatTie), p.0, p.1);
  }

  /** The member axis needs no second pass: of the clip's own output, whatever the seat
      axis did to it after, it changes nothing. */
  lemma MemberAxisSettles(spans: seq<TenureSpan>, capacity: Capacity)
    requires AllValid(spans)
    ensures var out := Clipped(spans, capacity).spans; MemberPass(out, MembersOf(out)) == out
  {
    hide AllValid, ClippedFrom, MemberPass, SeatPass, SeatsOf, MembersOf, MemberPairs;
    var members := MembersOf(spans);
    var moved := MemberPass(spans, members);
    var out := Clipped(spans, capacity).spans;
    ClipStepsNarrow(capacity);
    MemberPassInduction(ValidlyClipped, spans, members);
    SeatPassInduction(ValidlyClipped, moved, SeatsOf(moved), capacity);
    ClipOnlyNarrows(spans, capacity);
    SameMembers(spans, out);
    forall m, p | m in MembersOf(out) && p in MemberPairs(out, m) ensures MoveStep(out, p) == out {
      var u := MemberPassLeavesPut(spans, members, m);
      ClippedFromTransitive(u, moved, out);
      SamePairsEitherWay(u, out, m, p);
      if p in MemberPairs(u, m) {
        StaysPutOnward(moved, out, p);
      } else {
        TurnedPairStaysPut(u, out, m, p);
      }
    }
    MemberPassRests(out, MembersOf(out), capacity);
  }

  lemma SameMembers(u: seq<TenureSpan>, v: seq<TenureSpan>)
    requires ClippedFrom(u, v)
    ensures MembersOf(u) == MembersOf(v)
  {
    var a := set s | s in u && SingleHolder(s) :: s.memberId;
    var b := set s | s in v && SingleHolder(s) :: s.memberId;
    forall m ensures m in a <==> m in b {
      if m in a {
        var k :| 0 <= k < |u| && SingleHolder(u[k]) && u[k].memberId == m;
        assert SameIdentity(u[k], v[k]) && v[k] in v;
      }
      if m in b {
        var k :| 0 <= k < |v| && SingleHolder(v[k]) && v[k].memberId == m;
        assert SameIdentity(u[k], v[k]) && u[k] in u;
      }
    }
    assert a == b;
  }
}
