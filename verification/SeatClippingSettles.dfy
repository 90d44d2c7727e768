/** How the clip comes to rest: pair by pair at once, the whole pass after finitely many
    repetitions, and not always after one. */
module SeatClippingSettles {
  import opened Ordering
  import opened Terms
  import opened Tenure
  import opened SeatClipping
  import opened SeatClippingNarrows

  // ----- A pair, resolved twice

  /** Resolving a move again changes nothing. */
  lemma MoveSettlesOnce(a: TenureSpan, b: TenureSpan)
    ensures ResolvedMove(ResolvedMove(a, b), b) == ResolvedMove(a, b)
  {
    hide Overlaps, TenureSpan.ValidFromLatest;
  }

  lemma NarrowerAdmitsFewer(capacity: Capacity, a: TenureSpan, b: TenureSpan, c: TenureSpan, d: TenureSpan)
    requires Narrower(a, c) && Narrower(b, d) && a.Seat() == b.Seat()
    ensures MultiHolder(capacity, c, d) ==> MultiHolder(capacity, a, b)
  {
    hide DatedToTheDayAtStart, DatedToTheDayAtEnd, TenureSpan.Valid, TenureSpan.Sound, TenureSpan.Windowless;
    if MultiHolder(capacity, c, d) {
      var periods := capacity[c.Seat()];
      var k :| 0 <= k < |periods| && Admits(periods[k], Max(c.validFrom, d.validFrom), Min(c.EndOrOpen(), d.EndOrOpen()));
      assert Admits(periods[k], Max(a.validFrom, b.validFrom), Min(a.EndOrOpen(), b.EndOrOpen()));
    }
  }

  lemma OpenedSettles(pred: TenureSpan, succ: TenureSpan, exit: Date)
    requires StatedExit(pred) == Some(exit)
    requires OpenSuccessor(pred, succ, exit).reason.None?
    ensures var h := OpenSuccessor(pred, succ, exit); h.a == pred && Handoff(pred, h.b) == h
    ensures succ.validFrom <= OpenSuccessor(pred, succ, exit).b.validFrom
    ensures OpenSuccessor(pred, succ, exit).b.EndOrOpen() == succ.EndOrOpen()
  {
    hide InBiennium, DayStart, DayEnd, TenureSpan.ValidFromLatest, TenureSpan.ValidToEarliest;
  }

  lemma ClosedSettles(pred: TenureSpan, succ: TenureSpan)
    requires StatedStart(succ) && ClosePredecessor(pred, succ).reason.None?
    ensures var h := ClosePredecessor(pred, succ); h.b == succ && Handoff(h.a, succ) == h
    ensures ClosePredecessor(pred, succ).a.validFrom == pred.validFrom
    ensures ClosePredecessor(pred, succ).a.EndOrOpen() <= pred.EndOrOpen()
  {
    hide InBiennium, DayStart, DayEnd, TenureSpan.ValidFromLatest, TenureSpan.ValidToEarliest;
  }

  /** A second look at a handoff ranks the two tenures as the first did, and finds its
      ruling already carried out. */
  lemma HandoffSettlesOnce(pred: TenureSpan, succ: TenureSpan)
    requires TenureLe(pred, succ)
    ensures var h := Handoff(pred, succ); TenureLe(h.a, h.b) && Handoff(h.a, h.b) == h
    ensures var h := Handoff(pred, succ); !TenureLe(succ, pred) ==> !TenureLe(h.b, h.a)
    ensures var h := Handoff(pred, succ); h.reason.Some? ==> h.a == pred && h.b == succ
  {
    hide OpenSuccessor, ClosePredecessor;
    hide DayStart, DayEnd, TenureSpan.ValidFromLatest, TenureSpan.ValidToEarliest;
    var h := Handoff(pred, succ);
    if h.reason.None? {
      var exit := StatedExit(pred);
      if exit.Some? && h == OpenSuccessor(pred, succ, exit.value) {
        OpenedSettles(pred, succ, exit.value);
      } else {
        ClosedSettles(pred, succ);
      }
    } else {
      RefusedUntouched(pred, succ);
    }
  }

  lemma RefusedUntouched(pred: TenureSpan, succ: TenureSpan)
    ensures var h := Handoff(pred, succ); h.reason.Some? ==> h.a == pred && h.b == succ
  {
    hide DayStart, DayEnd, InBiennium, ClosedAt, OpenedAt, TenureSpan.ValidFromLatest, TenureSpan.ValidToEarliest;
  }

  /** Resolving a pair again, right after it was resolved or refused, changes nothing
      and refuses nothing new. */
  lemma PairSettlesOnce(a: TenureSpan, b: TenureSpan, capacity: Capacity)
    requires a.Valid() && b.Valid() && a.Seat() == b.Seat()
    ensures var r := ResolvedPair(a, b, capacity); ResolvedPair(r.a, r.b, capacity) == r
  {
    var r := ResolvedPair(a, b, capacity);
    PairNarrows(a, b, capacity);
    assert r.a.memberId == a.memberId && r.b.memberId == b.memberId;
    NarrowerAdmitsFewer(capacity, a, b, r.a, r.b);
    hide Handoff, Overlaps, MultiHolder, DatesFrom, Narrower;
    if a.memberId != b.memberId && Overlaps(a, b) && !MultiHolder(capacity, a, b) {
      if TenureLe(a, b) {
        HandoffSettlesOnce(a, b);
      } else {
        HandoffSettlesOnce(b, a);
      }
    }
  }

  // ----- The pass, repeated

  function Length(s: TenureSpan): nat {
    if s.validFrom < s.EndOrOpen() then s.EndOrOpen() - s.validFrom else 0
  }

  /** How much of a span is still there for a clip to settle: its edges not yet derived,
      its windows, and being active. */
  function Unsettled(s: TenureSpan): nat {
    (if s.startBasis == Derived then 0 else 1) + (if s.endBasis == Derived then 0 else 1)
    + (if s.startWindowEnd.Some? then 1 else 0) + (if s.endWindowStart.Some? then 1 else 0)
    + (if s.isActive then 1 else 0)
  }

  predicate Lower(a: TenureSpan, b: TenureSpan) {
    Length(b) < Length(a) || (Length(b) == Length(a) && Unsettled(b) < Unsettled(a))
  }

  lemma CloseLowers(s: TenureSpan, boundary: Date)
    requires s.Valid() && s.validFrom < boundary <= s.EndOrOpen()
    ensures ClosedAt(s, boundary) == s || Lower(s, ClosedAt(s, boundary))
  {
  }

  lemma OpenLowers(s: TenureSpan, boundary: Date)
    requires s.Valid() && s.validFrom <= boundary < s.EndOrOpen()
    ensures OpenedAt(s, boundary) == s || Lower(s, OpenedAt(s, boundary))
  {
  }

  lemma MoveLowers(a: TenureSpan, b: TenureSpan)
    requires a.Valid()
    ensures ResolvedMove(a, b) == a || Lower(a, ResolvedMove(a, b))
  {
    hide ClosedAt, Lower, Overlaps;
    if ResolvedMove(a, b) != a { CloseLowers(a, Min(b.ValidFromLatest(), a.EndOrOpen())); }
  }

  /** A ruling touches one side at most, and lowers the side it touches. */
  lemma HandoffLowers(pred: TenureSpan, succ: TenureSpan)
    requires pred.Valid() && succ.Valid() && Overlaps(pred, succ)
    ensures var h := Handoff(pred, succ);
            (h.a == pred && (h.b == succ || Lower(succ, h.b))) || (h.b == succ && Lower(pred, h.a))
  {
    OverlapsMeans(pred, succ);
    HandoffIs(pred, succ);
    hide Handoff, ClosedAt, OpenedAt, Lower, InBiennium, DatedToTheDayAtStart, DatedToTheDayAtEnd, Overlaps;
    hide TenureSpan.ValidFromLatest, TenureSpan.ValidToEarliest;
    var h := Handoff(pred, succ);
    if h.b != succ {
      OpenLowers(succ, Max(StatedExit(pred).value, succ.validFrom));
    } else if h.a != pred {
      CloseLowers(pred, Min(succ.ValidFromLatest(), pred.EndOrOpen()));
    }
  }

  lemma PairLowers(a: TenureSpan, b: TenureSpan, capacity: Capacity)
    requires a.Valid() && b.Valid()
    ensures var r := ResolvedPair(a, b, capacity);
            (r.a == a && (r.b == b || Lower(b, r.b))) || (r.b == b && Lower(a, r.a))
  {
    OverlapsMeans(a, b); OverlapsMeans(b, a);
    hide Handoff, Lower, Overlaps, MultiHolder;
    if a.memberId != b.memberId && Overlaps(a, b) && !MultiHolder(capacity, a, b) {
      if TenureLe(a, b) { HandoffLowers(a, b); } else { HandoffLowers(b, a); }
    }
  }

  function Total(w: seq<TenureSpan>, f: TenureSpan -> nat): nat {
    if w == [] then 0 else f(w[0]) + Total(w[1..], f)
  }

  lemma {:induction false} TotalUpdate(w: seq<TenureSpan>, i: nat, x: TenureSpan, f: TenureSpan -> nat)
    requires i < |w|
    ensures Total(w[i := x], f) + f(w[i]) == Total(w, f) + f(x)
  {
    if i == 0 {
      assert w[0 := x][1..] == w[1..];
    } else {
      assert w[i := x][1..] == w[1..][i - 1 := x];
      TotalUpdate(w[1..], i - 1, x, f);
    }
  }

  /** Lexicographically: total window length first, then what is left unsettled. */
  predicate Below(u: seq<TenureSpan>, v: seq<TenureSpan>) {
    || Total(v, Length) < Total(u, Length)
    || (Total(v, Length) == Total(u, Length) && Total(v, Unsettled) < Total(u, Unsettled))
  }

  ghost predicate Progresses(u: seq<TenureSpan>, v: seq<TenureSpan>) {
    AllValid(u) ==> AllValid(v) && (v == u || Below(u, v))
  }

  lemma UpdateProgresses(w: seq<TenureSpan>, i: nat, x: TenureSpan)
    requires i < |w| && (x == w[i] || Lower(w[i], x))
    ensures w[i := x] == w || Below(w, w[i := x])
  {
    TotalUpdate(w, i, x, Length);
    TotalUpdate(w, i, x, Unsettled);
    hide Length, Unsettled, Total;
  }

  lemma StepProgresses(w: seq<TenureSpan>, p: Pair, capacity: Capacity)
    requires p.0 < |w| && p.1 < |w|
    ensures Progresses(w, MoveStep(w, p)) && Progresses(w, PairStep(w, p, capacity))
  {
    hide Below, Lower, ResolvedPair, ResolvedMove, ClippedFrom;
    var a, b := w[p.0], w[p.1];
    StepNarrows(w, p, capacity);
    if AllValid(w) {
      MoveLowers(a, b);
      UpdateProgresses(w, p.0, ResolvedMove(a, b));
      PairLowers(a, b, capacity);
      var r := ResolvedPair(a, b, capacity);
      if p.0 != p.1 {
        if r.a == a {
          UpdateProgresses(w, p.1, r.b);
          assert w[p.0 := a][p.1 := r.b] == w[p.1 := r.b];
        } else {
          UpdateProgresses(w, p.0, r.a);
          assert w[p.0 := r.a][p.1 := b] == w[p.0 := r.a];
        }
      } else {
        SameMemberUntouched(a, capacity);
      }
    }
  }

  lemma SameMemberUntouched(a: TenureSpan, capacity: Capacity)
    ensures ResolvedPair(a, a, capacity) == Resolved(a, a, None)
  {
  }

  lemma ClipStepsProgress(capacity: Capacity)
    ensures Stepwise(Progresses, capacity)
  {
    hide MoveStep, PairStep, AllValid;
    forall w: seq<TenureSpan>, p: Pair | p.0 < |w| && p.1 < |w|
      ensures Progresses(w, MoveStep(w, p)) && Progresses(w, PairStep(w, p, capacity))
    {
      StepProgresses(w, p, capacity);
    }
  }

  /** A pass that changes anything strictly lowers the measure. */
  lemma ClipProgresses(spans: seq<TenureSpan>, capacity: Capacity)
    requires AllValid(spans)
    ensures var out := Clipped(spans, capacity).spans; AllValid(out) && (out == spans || Below(spans, out))
  {
    ClipStepsProgress(capacity);
    ClipInduction(Progresses, spans, capacity);
    hide Clipped, AllValid, Below;
  }

  function Repeated(spans: seq<TenureSpan>, capacity: Capacity, n: nat): seq<TenureSpan>
    decreases n
  {
    if n == 0 then spans else Repeated(Clipped(spans, capacity).spans, capacity, n - 1)
  }

  /** The pass leaves these spans alone. */
  predicate AtRest(spans: seq<TenureSpan>, capacity: Capacity) {
    Clipped(spans, capacity).spans == spans
  }

  lemma RepeatedAgain(spans: seq<TenureSpan>, capacity: Capacity, n: nat)
    ensures Repeated(spans, capacity, n + 1) == Repeated(Clipped(spans, capacity).spans, capacity, n)
  {
  }

  /** Repeating the pass reaches spans it leaves alone. */
  lemma {:induction false} RepeatingStabilises(spans: seq<TenureSpan>, capacity: Capacity) returns (n: nat)
    requires AllValid(spans)
    ensures AtRest(Repeated(spans, capacity, n), capacity)
    decreases Total(spans, Length), Total(spans, Unsettled)
  {
    hide Clipped, AllValid, Total, Repeated, AtRest;
    var out := Clipped(spans, capacity).spans;
    ClipProgresses(spans, capacity);
    if out == spans {
      n := 0;
      RestsAlready(spans, capacity);
    } else {
      var m := RepeatingStabilises(out, capacity);
      n := m + 1;
      RepeatedAgain(spans, capacity, m);
    }
  }

  lemma RestsAlready(spans: seq<TenureSpan>, capacity: Capacity)
    requires Clipped(spans, capacity).spans == spans
    ensures AtRest(Repeated(spans, capacity, 0), capacity)
  {
  }

  // ----- When one more pass changes nothing

  /** No pair of one group, taken on its own, would be moved. */
  ghost predicate MembersQuiet(w: seq<TenureSpan>, members: seq<string>) {
    forall m, p :: m in members && p in MemberPairs(w, m) ==> MoveStep(w, p) == w
  }

  ghost predicate SeatsQuiet(w: seq<TenureSpan>, seats: seq<(string, string)>, capacity: Capacity) {
    forall seat, p :: seat in seats && p in SeatPairs(w, seat) ==> PairStep(w, p, capacity) == w
  }

  lemma BelowOnward(u: seq<TenureSpan>, v: seq<TenureSpan>, w: seq<TenureSpan>)
    requires AllValid(u) && Progresses(u, v) && Progresses(v, w)
    ensures w == u ==> v == u
  {
    hide AllValid, Total;
  }

  lemma {:induction false} MovesRest(w: seq<TenureSpan>, pairs: seq<Pair>, capacity: Capacity)
    requires AllValid(w) && Within(pairs, |w|)
    ensures Moves(w, pairs) == w <==> forall p :: p in pairs ==> MoveStep(w, p) == w
    decreases |pairs|
  {
    hide MoveStep, AllValid, Progresses;
    if pairs != [] {
      var v := MoveStep(w, pairs[0]);
      ClipStepsProgress(capacity);
      StepProgresses(w, pairs[0], capacity);
      MovesInduction(Progresses, v, pairs[1..]);
      BelowOnward(w, v, Moves(v, pairs[1..]));
      if v == w { MovesRest(w, pairs[1..], capacity); }
      assert pairs == [pairs[0]] + pairs[1..];
    }
  }

  lemma {:induction false} HandoffsRest(w: seq<TenureSpan>, pairs: seq<Pair>, capacity: Capacity)
    requires AllValid(w) && Within(pairs, |w|)
    ensures Handoffs(w, pairs, capacity).spans == w <==> forall p :: p in pairs ==> PairStep(w, p, capacity) == w
    decreases |pairs|
  {
    hide PairStep, AllValid, Progresses;
    if pairs != [] {
      var v := PairStep(w, pairs[0], capacity);
      ClipStepsProgress(capacity);
      StepProgresses(w, pairs[0], capacity);
      HandoffsInduction(Progresses, v, pairs[1..], capacity);
      BelowOnward(w, v, Handoffs(v, pairs[1..], capacity).spans);
      if v == w { HandoffsRest(w, pairs[1..], capacity); }
      assert pairs == [pairs[0]] + pairs[1..];
    }
  }

  lemma {:induction false} MemberPassRests(w: seq<TenureSpan>, members: seq<string>, capacity: Capacity)
    requires AllValid(w)
    ensures MemberPass(w, members) == w <==> MembersQuiet(w, members)
    decreases |members|
  {
    hide MoveStep, AllValid, Progresses, Moves, MemberPairs;
    if members != [] {
      var v := Moves(w, MemberPairs(w, members[0]));
      ClipStepsProgress(capacity);
      MovesRest(w, MemberPairs(w, members[0]), capacity);
      MovesInduction(Progresses, w, MemberPairs(w, members[0]));
      MemberPassInduction(Progresses, v, members[1..]);
      BelowOnward(w, v, MemberPass(v, members[1..]));
      if v == w { MemberPassRests(w, members[1..], capacity); }
      assert members == [members[0]] + members[1..];
    }
  }

  lemma {:induction false} SeatPassRests(w: seq<TenureSpan>, seats: seq<(string, string)>, capacity: Capacity)
    requires AllValid(w)
    ensures SeatPass(w, seats, capacity).spans == w <==> SeatsQuiet(w, seats, capacity)
    decreases |seats|
  {
    hide PairStep, AllValid, Progresses, Handoffs, SeatPairs;
    if seats != [] {
      var v := Handoffs(w, SeatPairs(w, seats[0]), capacity).spans;
      ClipStepsProgress(capacity);
      HandoffsRest(w, SeatPairs(w, seats[0]), capacity);
      HandoffsInduction(Progresses, w, SeatPairs(w, seats[0]), capacity);
      SeatPassInduction(Progresses, v, seats[1..], capacity);
      BelowOnward(w, v, SeatPass(v, seats[1..], capacity).spans);
      if v == w { SeatPassRests(w, seats[1..], capacity); }
      assert seats == [seats[0]] + seats[1..];
    }
  }

  /** The pass is a no-op exactly on the spans of which no single pair, looked at alone,
      would be clipped: no chain of clips ever cancels out. */
  lemma RestsExactlyWhenQuiet(spans: seq<TenureSpan>, capacity: Capacity)
    requires AllValid(spans)
    ensures AtRest(spans, capacity)
       <==> MembersQuiet(spans, MembersOf(spans)) && SeatsQuiet(spans, SeatsOf(spans), capacity)
  {
    hide AllValid, Progresses, MemberPass, SeatPass, MembersQuiet, SeatsQuiet, MembersOf, SeatsOf;
    var moved := MemberPass(spans, MembersOf(spans));
    ClipStepsProgress(capacity);
    MemberPassInduction(Progresses, spans, MembersOf(spans));
    SeatPassInduction(Progresses, moved, SeatsOf(moved), capacity);
    BelowOnward(spans, moved, Clipped(spans, capacity).spans);
    MemberPassRests(spans, MembersOf(spans), capacity);
    SeatPassRests(spans, SeatsOf(spans), capacity);
  }
}
