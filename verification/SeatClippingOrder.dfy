/** The clip does not depend on the order its spans come in, so neither does the split
    of the result back into families. */
module SeatClippingOrder {
  import opened Ordering
  import opened Terms
  import opened Tenure
  import opened SeatClipping
  import opened SeatClippingNarrows
  import opened SeatClippingSecondPass

  /** `perm` lists each of `0..n` once. */
  ghost predicate Permutation(perm: seq<nat>, n: nat) {
    |perm| == n && Distinct(perm) && forall k :: 0 <= k < n ==> perm[k] < n
  }

  /** `v` is `w` rearranged: what stands at `k` in `v` stands at `perm[k]` in `w`. */
  ghost predicate Rearranged(v: seq<TenureSpan>, w: seq<TenureSpan>, perm: seq<nat>) {
    && |v| == |w| && Permutation(perm, |w|)
    && forall k :: 0 <= k < |v| ==> v[k] == w[perm[k]]
  }

  /** One member's tenures of one single-holder seat. */
  predicate Twins(a: TenureSpan, b: TenureSpan) {
    SingleHolder(a) && a.memberId == b.memberId && a.Seat() == b.Seat()
  }

  /** No member has two spans of one single-holder seat with the same start. */
  ghost predicate TwinFree(w: seq<TenureSpan>) {
    forall i, j :: 0 <= i < |w| && 0 <= j < |w| && i != j && Twins(w[i], w[j]) ==> w[i].validFrom != w[j].validFrom
  }

  function ElementSet(s: seq<nat>): (r: set<nat>)
    ensures forall x :: x in r <==> x in s
  {
    set x | x in s
  }

  lemma {:induction false} DistinctSize(s: seq<nat>)
    requires Distinct(s)
    ensures |ElementSet(s)| == |s|
  {
    if s != [] {
      DistinctSize(s[1..]);
      assert s == [s[0]] + s[1..];
      assert ElementSet(s) == {s[0]} + ElementSet(s[1..]);
    }
  }

  lemma {:induction false} InitialSegment(n: nat) returns (r: set<nat>)
    ensures forall x: nat :: x in r <==> x < n
    ensures |r| == n
  {
    if n == 0 {
      r := {};
    } else {
      var q := InitialSegment(n - 1);
      r := q + {n - 1};
    }
  }

  lemma SubsetOfSameSize(a: set<nat>, b: set<nat>)
    requires a <= b && |a| == |b|
    ensures a == b
  {
    assert |b - a| == |b| - |a|;
  }

  /** A permutation misses no position. */
  lemma PermutationCovers(perm: seq<nat>, n: nat, x: nat)
    requires Permutation(perm, n) && x < n
    ensures x in perm
  {
    var all := InitialSegment(n);
    DistinctSize(perm);
    SubsetOfSameSize(ElementSet(perm), all);
  }

  function Renamed(perm: seq<nat>, positions: seq<nat>): seq<nat>
    requires forall k :: 0 <= k < |positions| ==> positions[k] < |perm|
  {
    seq(|positions|, k requires 0 <= k < |positions| => perm[positions[k]])
  }

  /** Within a group no two positions sort alike. */
  ghost predicate Untied(w: seq<TenureSpan>, group: TenureSpan -> bool, tie: TenureSpan -> SortKey) {
    var key := PositionKey(w, tie);
    forall i: nat, j: nat :: i < |w| && j < |w| && group(w[i]) && group(w[j]) && key(i) == key(j) ==> i == j
  }

  /** A group's order is the same order of the same tenures, wherever they stand. */
  lemma OrderedRenames(v: seq<TenureSpan>, w: seq<TenureSpan>, perm: seq<nat>, group: TenureSpan -> bool, tie: TenureSpan -> SortKey)
    requires Rearranged(v, w, perm) && Untied(w, group, tie)
    ensures Renamed(perm, Ordered(v, group, tie)) == Ordered(w, group, tie)
  {
    var here, there, key := Ordered(v, group, tie), Ordered(w, group, tie), PositionKey(w, tie);
    var renamed := Renamed(perm, here);
    OrderedDistinct(v, group, tie);
    OrderedDistinct(w, group, tie);
    OrderedSorts(v, group, tie);
    OrderedSorts(w, group, tie);
    RenamedSorts(v, w, perm, here, tie);
    RenamedElements(v, w, perm, group, tie);
    assert Distinct(renamed);
    assert KeyedApart(there, key);
    hide Ordered, Renamed, SortedBy, Untied, Rearranged, PositionKey, KeyedApart;
    DistinctSameElements(renamed, there);
    SortedUnique(there, renamed, key);
  }

  lemma RenamedSorts(v: seq<TenureSpan>, w: seq<TenureSpan>, perm: seq<nat>, here: seq<nat>, tie: TenureSpan -> SortKey)
    requires Rearranged(v, w, perm) && SortedBy(here, PositionKey(v, tie)) && forall k :: 0 <= k < |here| ==> here[k] < |v|
    ensures SortedBy(Renamed(perm, here), PositionKey(w, tie))
  {
    var renamed := Renamed(perm, here);
    forall k, l | 0 <= k < l < |renamed| ensures KeyLe(PositionKey(w, tie)(renamed[k]), PositionKey(w, tie)(renamed[l])) {
      assert KeyLe(PositionKey(v, tie)(here[k]), PositionKey(v, tie)(here[l]));
    }
  }

  lemma RenamedElements(v: seq<TenureSpan>, w: seq<TenureSpan>, perm: seq<nat>, group: TenureSpan -> bool, tie: TenureSpan -> SortKey)
    requires Rearranged(v, w, perm)
    ensures forall x: nat :: x in Renamed(perm, Ordered(v, group, tie)) <==> x in Ordered(w, group, tie)
  {
    OrderedDistinct(v, group, tie);
    OrderedDistinct(w, group, tie);
    hide Ordered;
    forall x: nat ensures x in Renamed(perm, Ordered(v, group, tie)) <==> x in Ordered(w, group, tie) {
      if x in Ordered(w, group, tie) { Reaches(v, w, perm, group, tie, x); }
    }
  }

  lemma Reaches(v: seq<TenureSpan>, w: seq<TenureSpan>, perm: seq<nat>, group: TenureSpan -> bool, tie: TenureSpan -> SortKey, x: nat)
    requires Rearranged(v, w, perm) && x in Ordered(w, group, tie)
    ensures x in Renamed(perm, Ordered(v, group, tie))
  {
    OrderedDistinct(v, group, tie);
    OrderedDistinct(w, group, tie);
    PermutationCovers(perm, |w|, x);
    var k :| 0 <= k < |perm| && perm[k] == x;
    var here := Ordered(v, group, tie);
    assert k in here;
    var l :| 0 <= l < |here| && here[l] == k;
    assert Renamed(perm, here)[l] == x;
  }

  ghost predicate PairsRenamed(perm: seq<nat>, here: seq<Pair>, there: seq<Pair>) {
    && |here| == |there| && Within(here, |perm|)
    && forall k :: 0 <= k < |here| ==> there[k] == (perm[here[k].0], perm[here[k].1])
  }

  lemma {:induction false} RowRenames(perm: seq<nat>, i: nat, rest: seq<nat>)
    requires i < |perm| && forall k :: 0 <= k < |rest| ==> rest[k] < |perm|
    ensures PairsRenamed(perm, Row(i, rest), Row(perm[i], Renamed(perm, rest)))
  {
    if rest != [] {
      RowRenames(perm, i, rest[1..]);
      assert Renamed(perm, rest)[1..] == Renamed(perm, rest[1..]);
    }
  }

  lemma {:induction false} PairsRename(perm: seq<nat>, ordered: seq<nat>)
    requires forall k :: 0 <= k < |ordered| ==> ordered[k] < |perm|
    ensures PairsRenamed(perm, PairsOf(ordered), PairsOf(Renamed(perm, ordered)))
  {
    if ordered != [] {
      RowRenames(perm, ordered[0], ordered[1..]);
      PairsRename(perm, ordered[1..]);
      assert Renamed(perm, ordered)[1..] == Renamed(perm, ordered[1..]);
    }
  }

  lemma RearrangedUpdate(v: seq<TenureSpan>, w: seq<TenureSpan>, perm: seq<nat>, i: nat, x: TenureSpan)
    requires Rearranged(v, w, perm) && i < |v|
    ensures Rearranged(v[i := x], w[perm[i] := x], perm)
  {
  }

  lemma MoveRearranges(v: seq<TenureSpan>, w: seq<TenureSpan>, perm: seq<nat>, p: Pair, q: Pair)
    requires Rearranged(v, w, perm) && p.0 < |v| && p.1 < |v| && q == (perm[p.0], perm[p.1])
    ensures Rearranged(MoveStep(v, p), MoveStep(w, q), perm)
  {
    hide ResolvedMove;
    RearrangedUpdate(v, w, perm, p.0, ResolvedMove(v[p.0], v[p.1]));
  }

  lemma {:induction false} MovesRearrange(v: seq<TenureSpan>, w: seq<TenureSpan>, perm: seq<nat>, here: seq<Pair>, there: seq<Pair>)
    requires Rearranged(v, w, perm) && PairsRenamed(perm, here, there)
    ensures Within(there, |w|) && Rearranged(Moves(v, here), Moves(w, there), perm)
    decreases |here|
  {
    hide MoveStep, Rearranged;
    if here != [] {
      RearrangedSizes(v, w, perm);
      MoveRearranges(v, w, perm, here[0], there[0]);
      MovesRearrange(MoveStep(v, here[0]), MoveStep(w, there[0]), perm, here[1..], there[1..]);
      assert there == [there[0]] + there[1..];
    }
  }

  lemma StepRearranges(v: seq<TenureSpan>, w: seq<TenureSpan>, perm: seq<nat>, p: Pair, q: Pair, capacity: Capacity)
    requires Rearranged(v, w, perm) && p.0 < |v| && p.1 < |v| && q == (perm[p.0], perm[p.1])
    ensures Rearranged(PairStep(v, p, capacity), PairStep(w, q, capacity), perm)
    ensures Refusal(v, p, capacity) == Refusal(w, q, capacity)
  {
    hide ResolvedPair;
    var r := ResolvedPair(v[p.0], v[p.1], capacity);
    RearrangedUpdate(v, w, perm, p.0, r.a);
    RearrangedUpdate(v[p.0 := r.a], w[q.0 := r.a], perm, p.1, r.b);
  }

  lemma RearrangedSizes(v: seq<TenureSpan>, w: seq<TenureSpan>, perm: seq<nat>)
    requires Rearranged(v, w, perm)
    ensures |v| == |w| == |perm| && forall i :: 0 <= i < |perm| ==> perm[i] < |w|
  {
  }

  lemma {:induction false} HandoffsRearrange(v: seq<TenureSpan>, w: seq<TenureSpan>, perm: seq<nat>, here: seq<Pair>, there: seq<Pair>, capacity: Capacity)
    requires Rearranged(v, w, perm) && PairsRenamed(perm, here, there)
    ensures Within(there, |w|)
    ensures var r, s := Handoffs(v, here, capacity), Handoffs(w, there, capacity);
            Rearranged(r.spans, s.spans, perm) && r.unclipped == s.unclipped
    decreases |here|
  {
    hide PairStep, Refusal, Rearranged;
    if here != [] {
      RearrangedSizes(v, w, perm);
      StepRearranges(v, w, perm, here[0], there[0], capacity);
      HandoffsRearrange(PairStep(v, here[0], capacity), PairStep(w, there[0], capacity), perm, here[1..], there[1..], capacity);
      assert there == [there[0]] + there[1..];
    }
  }

  // ----- The member axis

  /** Moves change no start and no identity, so twins stay out. */
  ghost predicate StartsKept(u: seq<TenureSpan>, v: seq<TenureSpan>) {
    |v| == |u| && forall k :: 0 <= k < |u| ==> v[k].validFrom == u[k].validFrom && SameIdentity(u[k], v[k])
  }

  lemma MovesKeepStarts()
    ensures Composes(StartsKept) && HoldsOfMoves(StartsKept)
  {
    hide Overlaps, TenureSpan.ValidFromLatest;
  }

  lemma StartsKeptTwinFree(u: seq<TenureSpan>, v: seq<TenureSpan>)
    requires StartsKept(u, v) && TwinFree(u)
    ensures TwinFree(v)
  {
  }

  lemma SameKeys(a: TenureSpan, b: TenureSpan, x: SortKey, y: SortKey)
    requires [Num(a.validFrom), Num(a.EndOrOpen())] + x == [Num(b.validFrom), Num(b.EndOrOpen())] + y
    ensures a.validFrom == b.validFrom && x == y
  {
    var s, t := [Num(a.validFrom), Num(a.EndOrOpen())] + x, [Num(b.validFrom), Num(b.EndOrOpen())] + y;
    assert s[0] == t[0] && s[2..] == x && t[2..] == y;
  }

  lemma MembersUntied(w: seq<TenureSpan>, m: string)
    requires TwinFree(w)
    ensures Untied(w, OfMember(m), SeatTie)
  {
    var key := PositionKey(w, SeatTie);
    forall i: nat, j: nat | i < |w| && j < |w| && OfMember(m)(w[i]) && OfMember(m)(w[j]) && key(i) == key(j) ensures i == j {
      var x, y := SeatTie(w[i]), SeatTie(w[j]);
      SameKeys(w[i], w[j], x, y);
      assert x[0] == y[0] && x[1] == y[1];
    }
  }

  lemma {:induction false} MemberPassRearranges(v: seq<TenureSpan>, w: seq<TenureSpan>, perm: seq<nat>, members: seq<string>)
    requires Rearranged(v, w, perm) && TwinFree(w)
    ensures Rearranged(MemberPass(v, members), MemberPass(w, members), perm)
    decreases |members|
  {
    hide Rearranged, TwinFree, Moves, Ordered, PairsOf, Untied;
    if members != [] {
      var m := members[0];
      MembersUntied(w, m);
      OrderedRenames(v, w, perm, OfMember(m), SeatTie);
      RearrangedLength(v, w, perm);
      PairsRename(perm, Ordered(v, OfMember(m), SeatTie));
      MovesRearrange(v, w, perm, MemberPairs(v, m), MemberPairs(w, m));
      MovesKeepStarts();
      MovesInduction(StartsKept, w, MemberPairs(w, m));
      StartsKeptTwinFree(w, Moves(w, MemberPairs(w, m)));
      MemberPassRearranges(Moves(v, MemberPairs(v, m)), Moves(w, MemberPairs(w, m)), perm, members[1..]);
    }
  }

  lemma RearrangedLength(v: seq<TenureSpan>, w: seq<TenureSpan>, perm: seq<nat>)
    requires Rearranged(v, w, perm)
    ensures |perm| == |v| == |w|
  {
  }

  // ----- The seat axis

  /** No twins on the seats still to be handled. */
  ghost predicate TwinFreeOn(w: seq<TenureSpan>, seats: seq<(string, string)>) {
    forall i, j :: 0 <= i < |w| && 0 <= j < |w| && i != j && Twins(w[i], w[j]) && w[i].Seat() in seats ==> w[i].validFrom != w[j].validFrom
  }

  lemma SeatUntied(w: seq<TenureSpan>, seats: seq<(string, string)>, seat: (string, string))
    requires TwinFreeOn(w, seats) && seat in seats
    ensures Untied(w, OfSeat(seat), MemberTie)
  {
    var key := PositionKey(w, MemberTie);
    forall i: nat, j: nat | i < |w| && j < |w| && OfSeat(seat)(w[i]) && OfSeat(seat)(w[j]) && key(i) == key(j) ensures i == j {
      var x, y := MemberTie(w[i]), MemberTie(w[j]);
      SameKeys(w[i], w[j], x, y);
      assert x[0] == y[0];
    }
  }

  /** One seat's handoffs touch that seat's spans only, and no span's identity. */
  ghost predicate TouchesOnly(u: seq<TenureSpan>, v: seq<TenureSpan>, seat: (string, string)) {
    |v| == |u| && forall k :: 0 <= k < |u| ==> SameIdentity(u[k], v[k]) && (u[k].Seat() != seat ==> v[k] == u[k])
  }

  lemma ResolvedKeepsIdentity(a: TenureSpan, b: TenureSpan, capacity: Capacity)
    ensures var r := ResolvedPair(a, b, capacity); SameIdentity(a, r.a) && SameIdentity(b, r.b)
  {
    HandoffKeepsIdentity(a, b);
    HandoffKeepsIdentity(b, a);
    hide Overlaps, MultiHolder, Handoff, TenureLe, SameIdentity;
    SameItself(a);
    SameItself(b);
  }

  lemma SameItself(a: TenureSpan)
    ensures SameIdentity(a, a)
  {
  }

  lemma HandoffKeepsIdentity(pred: TenureSpan, succ: TenureSpan)
    ensures var h := Handoff(pred, succ); SameIdentity(pred, h.a) && SameIdentity(succ, h.b)
  {
    HandoffIs(pred, succ);
    hide Handoff, InBiennium, DatedToTheDayAtStart, DatedToTheDayAtEnd, TenureSpan.ValidFromLatest, TenureSpan.ValidToEarliest;
  }

  lemma {:induction false} HandoffsTouchOnly(w: seq<TenureSpan>, pairs: seq<Pair>, capacity: Capacity, seat: (string, string))
    requires Within(pairs, |w|) && forall p :: p in pairs ==> w[p.0].Seat() == seat == w[p.1].Seat()
    ensures TouchesOnly(w, Handoffs(w, pairs, capacity).spans, seat)
    decreases |pairs|
  {
    if pairs != [] {
      var v := PairStep(w, pairs[0], capacity);
      assert pairs[0] in pairs;
      StepTouchesOnly(w, pairs[0], capacity, seat);
      hide PairStep;
      forall p | p in pairs[1..] ensures v[p.0].Seat() == seat == v[p.1].Seat() {
        assert p in pairs;
      }
      HandoffsTouchOnly(v, pairs[1..], capacity, seat);
      TouchesOnlyTransitive(w, v, Handoffs(v, pairs[1..], capacity).spans, seat);
    }
  }

  lemma StepTouchesOnly(w: seq<TenureSpan>, p: Pair, capacity: Capacity, seat: (string, string))
    requires p.0 < |w| && p.1 < |w| && w[p.0].Seat() == seat == w[p.1].Seat()
    ensures TouchesOnly(w, PairStep(w, p, capacity), seat)
  {
    hide ResolvedPair;
    ResolvedKeepsIdentity(w[p.0], w[p.1], capacity);
  }

  lemma TouchesOnlyTransitive(u: seq<TenureSpan>, v: seq<TenureSpan>, w: seq<TenureSpan>, seat: (string, string))
    requires TouchesOnly(u, v, seat) && TouchesOnly(v, w, seat)
    ensures TouchesOnly(u, w, seat)
  {
  }

  lemma SeatPairsThere(w: seq<TenureSpan>, seat: (string, string))
    ensures forall p :: p in SeatPairs(w, seat) ==> p.0 < |w| && p.1 < |w| && w[p.0].Seat() == seat == w[p.1].Seat()
  {
    forall p | p in SeatPairs(w, seat) ensures p.0 < |w| && p.1 < |w| && w[p.0].Seat() == seat == w[p.1].Seat() {
      PairMembers(Ordered(w, OfSeat(seat), MemberTie), p);
    }
  }

  lemma TwinFreeOnward(u: seq<TenureSpan>, v: seq<TenureSpan>, seats: seq<(string, string)>)
    requires seats != [] && Distinct(seats) && TwinFreeOn(u, seats) && TouchesOnly(u, v, seats[0])
    ensures TwinFreeOn(v, seats[1..])
  {
    assert seats[0] !in seats[1..];
    forall i, j | 0 <= i < |v| && 0 <= j < |v| && i != j && Twins(v[i], v[j]) && v[i].Seat() in seats[1..]
      ensures v[i].validFrom != v[j].validFrom
    {
      assert u[i].Seat() == v[i].Seat() && v[i] == u[i] && v[j] == u[j];
    }
  }

  lemma {:induction false} SeatPassRearranges(v: seq<TenureSpan>, w: seq<TenureSpan>, perm: seq<nat>, seats: seq<(string, string)>, capacity: Capacity)
    requires Rearranged(v, w, perm) && Distinct(seats) && TwinFreeOn(w, seats)
    ensures var r, s := SeatPass(v, seats, capacity), SeatPass(w, seats, capacity);
            Rearranged(r.spans, s.spans, perm) && r.unclipped == s.unclipped
    decreases |seats|
  {
    hide Rearranged, TwinFreeOn, Handoffs, Ordered, PairsOf, Untied, TouchesOnly;
    if seats != [] {
      var seat := seats[0];
      SeatUntied(w, seats, seat);
      OrderedRenames(v, w, perm, OfSeat(seat), MemberTie);
      RearrangedLength(v, w, perm);
      PairsRename(perm, Ordered(v, OfSeat(seat), MemberTie));
      HandoffsRearrange(v, w, perm, SeatPairs(v, seat), SeatPairs(w, seat), capacity);
      SeatPairsThere(w, seat);
      HandoffsTouchOnly(w, SeatPairs(w, seat), capacity, seat);
      TwinFreeOnward(w, Handoffs(w, SeatPairs(w, seat), capacity).spans, seats);
      SeatPassRearranges(Handoffs(v, SeatPairs(v, seat), capacity).spans, Handoffs(w, SeatPairs(w, seat), capacity).spans, perm, seats[1..], capacity);
    }
  }

  // ----- The whole pass

  lemma SameElements(v: seq<TenureSpan>, w: seq<TenureSpan>, perm: seq<nat>)
    requires Rearranged(v, w, perm)
    ensures forall s :: s in v <==> s in w
  {
    forall s | s in w ensures s in v {
      var x :| 0 <= x < |w| && w[x] == s;
      PermutationCovers(perm, |w|, x);
      var k :| 0 <= k < |perm| && perm[k] == x;
      assert v[k] == s;
    }
  }

  lemma SameGroups(v: seq<TenureSpan>, w: seq<TenureSpan>)
    requires forall s :: s in v <==> s in w
    ensures MembersOf(v) == MembersOf(w) && SeatsOf(v) == SeatsOf(w)
  {
    assert (set s | s in v && SingleHolder(s) :: s.memberId) == (set s | s in w && SingleHolder(s) :: s.memberId);
    SameDiscriminators(v, w, KIND_HOUSE);
    SameDiscriminators(v, w, KIND_SENATE);
  }

  lemma SameDiscriminators(v: seq<TenureSpan>, w: seq<TenureSpan>, kind: string)
    requires forall s :: s in v <==> s in w
    ensures DiscriminatorsOf(v, kind) == DiscriminatorsOf(w, kind)
  {
    assert (set s | s in v && s.kind == kind && SingleHolder(s) && s.membership == Principal :: s.discriminator)
        == (set s | s in w && s.kind == kind && SingleHolder(s) && s.membership == Principal :: s.discriminator);
  }

  lemma {:induction false} SortedTextsDistinct(s: set<string>)
    ensures Distinct(SortedTexts(s))
  {
    if s != {} {
      var r := SortedTexts(s);
      SortedTextsDistinct(s - {r[0]});
      assert r[1..] == SortedTexts(s - {r[0]});
      forall k | 0 < k < |r| ensures r[0] != r[k] { assert r[k] == r[1..][k - 1] && r[k] in r[1..]; }
      forall i, j | 0 < i < j < |r| ensures r[i] != r[j] { assert r[i] == r[1..][i - 1] && r[j] == r[1..][j - 1]; }
    }
  }

  lemma DiscriminatorsDistinct(w: seq<TenureSpan>, kind: string)
    ensures Distinct(DiscriminatorsOf(w, kind))
    ensures forall seat :: seat in DiscriminatorsOf(w, kind) ==> seat.0 == kind
  {
    SortedTextsDistinct(set s | s in w && s.kind == kind && SingleHolder(s) && s.membership == Principal :: s.discriminator);
  }

  lemma SeatsDistinct(w: seq<TenureSpan>)
    ensures Distinct(SeatsOf(w))
  {
    DiscriminatorsDistinct(w, KIND_HOUSE);
    DiscriminatorsDistinct(w, KIND_SENATE);
    hide DiscriminatorsOf;
    assert KIND_HOUSE[8] != KIND_SENATE[8];
    var a, b := DiscriminatorsOf(w, KIND_HOUSE), DiscriminatorsOf(w, KIND_SENATE);
    forall i, j | 0 <= i < |a| && 0 <= j < |b| ensures a[i] != b[j] {
      assert a[i] in a && b[j] in b;
    }
  }

  /** Order independence: if no member has two spans of one seat with the same start,
      permuting the input permutes the output the same way, and reports the same. */
  lemma OrderDoesNotMatter(v: seq<TenureSpan>, w: seq<TenureSpan>, perm: seq<nat>, capacity: Capacity)
    requires Rearranged(v, w, perm) && TwinFree(w)
    ensures Rearranged(Clipped(v, capacity).spans, Clipped(w, capacity).spans, perm)
    ensures Clipped(v, capacity).unclipped == Clipped(w, capacity).unclipped
  {
    hide Rearranged, TwinFree, TwinFreeOn, MemberPass, SeatPass, SeatsOf, MembersOf;
    SameElements(v, w, perm);
    SameGroups(v, w);
    var members := MembersOf(w);
    var v', w' := MemberPass(v, members), MemberPass(w, members);
    MemberPassRearranges(v, w, perm, members);
    MovesKeepStarts();
    MemberPassInduction(StartsKept, w, members);
    StartsKeptTwinFree(w, w');
    SameElements(v', w', perm);
    SameGroups(v', w');
    SeatsDistinct(w');
    TwinFreeEverywhere(w', SeatsOf(w'));
    SeatPassRearranges(v', w', perm, SeatsOf(w'), capacity);
  }

  lemma TwinFreeEverywhere(w: seq<TenureSpan>, seats: seq<(string, string)>)
    requires TwinFree(w)
    ensures TwinFreeOn(w, seats)
  {
  }

  // ----- The families

  /** One source's spans. */
  datatype Family = Family(source: string, spans: seq<TenureSpan>)

  function Flat(families: seq<Family>): seq<TenureSpan> {
    if families == [] then [] else families[0].spans + Flat(families[1..])
  }

  function SplitBack(families: seq<Family>, clipped: seq<TenureSpan>): (r: seq<Family>)
    requires |clipped| == |Flat(families)|
    ensures |r| == |families|
  {
    if families == [] then [] else
      var size := |families[0].spans|;
      [Family(families[0].source, clipped[..size])] + SplitBack(families[1..], clipped[size..])
  }

  lemma NextFamily(families: seq<Family>, k: nat, clipped: seq<TenureSpan>, cursor: nat)
    requires k < |families| && cursor <= |clipped| && |clipped[cursor..]| == |Flat(families[k..])|
    ensures var next := cursor + |families[k].spans|;
            && next <= |clipped| && |clipped[next..]| == |Flat(families[k + 1..])|
            && SplitBack(families[k..], clipped[cursor..])
            == [Family(families[k].source, clipped[cursor..next])] + SplitBack(families[k + 1..], clipped[next..])
  {
    var size := |families[k].spans|;
    assert families[k..][1..] == families[k + 1..];
    assert clipped[cursor..][size..] == clipped[cursor + size..];
    assert clipped[cursor..][..size] == clipped[cursor..cursor + size];
  }

  method ClipSeatFamilies(families: seq<Family>, capacity: Capacity)
    returns (out: seq<Family>, unclipped: seq<UnclippedOverlap>)
    ensures out == SplitBack(families, Clipped(Flat(families), capacity).spans)
    ensures unclipped == Clipped(Flat(families), capacity).unclipped
  {
    hide Clipped, SplitBack, Flat, SeatPass, MemberPass;
    var result := ClipSeatCounterparts(Flat(families), capacity);
    out := [];
    var cursor: nat := 0;
    ghost var target := SplitBack(families, result.spans);
    assert families[0..] == families && result.spans[0..] == result.spans;
    for k := 0 to |families|
      invariant cursor <= |result.spans| && |result.spans[cursor..]| == |Flat(families[k..])|
      invariant target == out + SplitBack(families[k..], result.spans[cursor..])
    {
      var size := |families[k].spans|;
      NextFamily(families, k, result.spans, cursor);
      assert target == out + ([Family(families[k].source, result.spans[cursor..cursor + size])]
                              + SplitBack(families[k + 1..], result.spans[cursor + size..]));
      out := out + [Family(families[k].source, result.spans[cursor..cursor + size])];
      cursor := cursor + size;
    }
    NoFamilies(families, result.spans, cursor);
    return out, result.unclipped;
  }

  lemma NoFamilies(families: seq<Family>, clipped: seq<TenureSpan>, cursor: nat)
    requires cursor <= |clipped| && |clipped[cursor..]| == |Flat(families[|families|..])|
    ensures SplitBack(families[|families|..], clipped[cursor..]) == []
  {
  }

  /** Where family `k`'s spans begin in the union. */
  function Offset(families: seq<Family>, k: nat): nat
    requires k <= |families|
  {
    if k == 0 then 0 else |families[0].spans| + Offset(families[1..], k - 1)
  }

  lemma {:induction false} FlatAt(families: seq<Family>, k: nat, o: nat)
    requires k < |families| && o < |families[k].spans|
    ensures Offset(families, k) + o < |Flat(families)|
    ensures Flat(families)[Offset(families, k) + o] == families[k].spans[o]
  {
    if k > 0 { FlatAt(families[1..], k - 1, o); }
  }

  lemma {:induction false} Located(families: seq<Family>, x: nat) returns (k: nat, o: nat)
    requires x < |Flat(families)|
    ensures k < |families| && o < |families[k].spans| && x == Offset(families, k) + o
  {
    if x < |families[0].spans| {
      k, o := 0, x;
    } else {
      var l, p := Located(families[1..], x - |families[0].spans|);
      k, o := l + 1, p;
    }
  }

  lemma {:induction false} OffsetsApart(families: seq<Family>, k: nat, l: nat)
    requires k < l <= |families|
    ensures Offset(families, k) + |families[k].spans| <= Offset(families, l)
  {
    if k > 0 { OffsetsApart(families[1..], k - 1, l - 1); }
  }

  lemma {:induction false} SplitBackAt(families: seq<Family>, clipped: seq<TenureSpan>, k: nat)
    requires |clipped| == |Flat(families)| && k < |families|
    ensures var start, size := Offset(families, k), |families[k].spans|;
            start + size <= |clipped| && SplitBack(families, clipped)[k] == Family(families[k].source, clipped[start..start + size])
  {
    if k > 0 {
      var first := |families[0].spans|;
      SplitBackAt(families[1..], clipped[first..], k - 1);
      var start, size := Offset(families[1..], k - 1), |families[k].spans|;
      assert SplitBack(families, clipped)[k] == SplitBack(families[1..], clipped[first..])[k - 1];
      hide SplitBack, Flat;
      assert clipped[first..][start..start + size] == clipped[first + start..first + start + size];
    }
  }

  /** Block by block, where each span of one arrangement stands in the other. */
  function BlockPermutation(families: seq<Family>, offsets: seq<nat>): (r: seq<nat>)
    requires |offsets| == |families|
    ensures |r| == |Flat(families)|
  {
    if families == [] then [] else
      var start := offsets[0];
      seq(|families[0].spans|, (o: nat) => start + o) + BlockPermutation(families[1..], offsets[1..])
  }

  lemma {:induction false} BlockAt(families: seq<Family>, offsets: seq<nat>, k: nat, o: nat)
    requires |offsets| == |families| && k < |families| && o < |families[k].spans|
    ensures Offset(families, k) + o < |Flat(families)|
    ensures BlockPermutation(families, offsets)[Offset(families, k) + o] == offsets[k] + o
  {
    FlatAt(families, k, o);
    if k > 0 { BlockAt(families[1..], offsets[1..], k - 1, o); }
  }

  /** `g` lists the families of `f` in the order `pi`. */
  ghost predicate Reordered(g: seq<Family>, f: seq<Family>, pi: seq<nat>) {
    |g| == |f| && Permutation(pi, |f|) && forall k :: 0 <= k < |g| ==> g[k] == f[pi[k]]
  }

  function OffsetsOf(f: seq<Family>, pi: seq<nat>): seq<nat>
    requires forall k :: 0 <= k < |pi| ==> pi[k] < |f|
  {
    seq(|pi|, k requires 0 <= k < |pi| => Offset(f, pi[k]))
  }

  lemma BlocksDistinct(g: seq<Family>, f: seq<Family>, pi: seq<nat>)
    requires Reordered(g, f, pi)
    ensures Distinct(BlockPermutation(g, OffsetsOf(f, pi)))
  {
    var perm := BlockPermutation(g, OffsetsOf(f, pi));
    forall x, y | 0 <= x < y < |perm| ensures perm[x] != perm[y] {
      var k, o := Located(g, x);
      var l, p := Located(g, y);
      BlockAt(g, OffsetsOf(f, pi), k, o);
      BlockAt(g, OffsetsOf(f, pi), l, p);
      if pi[k] < pi[l] { OffsetsApart(f, pi[k], pi[l]); }
      if pi[l] < pi[k] { OffsetsApart(f, pi[l], pi[k]); }
      if k < l { assert pi[k] != pi[l]; }
      if l < k { assert pi[l] != pi[k]; }
    }
  }

  lemma BlocksCover(g: seq<Family>, f: seq<Family>, pi: seq<nat>, x: nat)
    requires Reordered(g, f, pi) && x < |Flat(f)|
    ensures x in BlockPermutation(g, OffsetsOf(f, pi))
  {
    var k, o := Located(f, x);
    PermutationCovers(pi, |f|, k);
    var j :| 0 <= j < |pi| && pi[j] == k;
    BlockAt(g, OffsetsOf(f, pi), j, o);
  }

  lemma BlocksMatch(g: seq<Family>, f: seq<Family>, pi: seq<nat>, x: nat)
    requires Reordered(g, f, pi) && x < |Flat(g)|
    ensures var y := BlockPermutation(g, OffsetsOf(f, pi))[x]; y < |Flat(f)| && Flat(g)[x] == Flat(f)[y]
  {
    hide BlockPermutation, Flat, Offset, Reordered, OffsetsOf, Distinct;
    assert |g| == |f| && Permutation(pi, |f|) by { ReorderedMeans(g, f, pi); }
    var k, o := Located(g, x);
    OffsetAt(f, pi, k);
    ReorderedAt(g, f, pi, k);
    BlockAt(g, OffsetsOf(f, pi), k, o);
    FlatAt(g, k, o);
    FlatAt(f, pi[k], o);
  }

  lemma OffsetAt(f: seq<Family>, pi: seq<nat>, k: nat)
    requires (forall l :: 0 <= l < |pi| ==> pi[l] < |f|) && k < |pi|
    ensures |OffsetsOf(f, pi)| == |pi| && OffsetsOf(f, pi)[k] == Offset(f, pi[k])
  {
    hide Offset;
  }

  lemma BlocksPermute(g: seq<Family>, f: seq<Family>, pi: seq<nat>)
    requires Reordered(g, f, pi)
    ensures Rearranged(Flat(g), Flat(f), BlockPermutation(g, OffsetsOf(f, pi)))
  {
    hide BlockPermutation, Flat, Offset, Distinct;
    var perm, v, w := BlockPermutation(g, OffsetsOf(f, pi)), Flat(g), Flat(f);
    BlocksDistinct(g, f, pi);
    forall x | 0 <= x < |v| ensures perm[x] < |w| && v[x] == w[perm[x]] { BlocksMatch(g, f, pi, x); }
    forall x: nat | x < |w| ensures x in perm { BlocksCover(g, f, pi, x); }
    CoveringLength(perm, |w|);
  }

  lemma CoveringLength(perm: seq<nat>, n: nat)
    requires Distinct(perm) && forall k :: 0 <= k < |perm| ==> perm[k] < n
    requires forall x: nat :: x < n ==> x in perm
    ensures |perm| == n
  {
    var all := InitialSegment(n);
    assert ElementSet(perm) == all;
    DistinctSize(perm);
  }

  lemma ReorderedMeans(g: seq<Family>, f: seq<Family>, pi: seq<nat>)
    requires Reordered(g, f, pi)
    ensures |g| == |f| && Permutation(pi, |f|)
  {
  }

  /** Whatever order the families come in, each source gets the same spans back, and the
      residue is the same. */
  lemma FamilyOrderDoesNotMatter(g: seq<Family>, f: seq<Family>, pi: seq<nat>, capacity: Capacity)
    requires Reordered(g, f, pi) && TwinFree(Flat(f))
    ensures Clipped(Flat(g), capacity).unclipped == Clipped(Flat(f), capacity).unclipped
    ensures forall k :: 0 <= k < |g| ==>
              SplitBack(g, Clipped(Flat(g), capacity).spans)[k] == SplitBack(f, Clipped(Flat(f), capacity).spans)[pi[k]]
  {
    hide Clipped, TwinFree, Rearranged, Reordered, SplitBack, BlockPermutation, Flat, Offset, Distinct;
    assert |g| == |f| && Permutation(pi, |f|) by { ReorderedMeans(g, f, pi); }
    var perm := BlockPermutation(g, OffsetsOf(f, pi));
    BlocksPermute(g, f, pi);
    OrderDoesNotMatter(Flat(g), Flat(f), perm, capacity);
    var v, w := Clipped(Flat(g), capacity).spans, Clipped(Flat(f), capacity).spans;
    forall k | 0 <= k < |g| ensures SplitBack(g, v)[k] == SplitBack(f, w)[pi[k]] {
      var l := pi[k];
      SplitBackAt(g, v, k);
      SplitBackAt(f, w, l);
      ReorderedAt(g, f, pi, k);
      forall i | Offset(g, k) <= i < Offset(g, k) + |g[k].spans| ensures v[i] == w[i - Offset(g, k) + Offset(f, l)] {
        SameSpan(g, f, pi, v, w, k, i - Offset(g, k));
      }
      SameBlock(g, f, v, w, k, l);
    }
  }

  lemma ReorderedAt(g: seq<Family>, f: seq<Family>, pi: seq<nat>, k: nat)
    requires Reordered(g, f, pi) && k < |g|
    ensures g[k] == f[pi[k]]
  {
  }

  lemma SameSpan(g: seq<Family>, f: seq<Family>, pi: seq<nat>, v: seq<TenureSpan>, w: seq<TenureSpan>, k: nat, o: nat)
    requires Reordered(g, f, pi) && k < |g| && o < |g[k].spans|
    requires Rearranged(v, w, BlockPermutation(g, OffsetsOf(f, pi)))
    ensures Offset(g, k) + o < |v| && Offset(f, pi[k]) + o < |w|
    ensures v[Offset(g, k) + o] == w[Offset(f, pi[k]) + o]
  {
    var perm := BlockPermutation(g, OffsetsOf(f, pi));
    BlockAt(g, OffsetsOf(f, pi), k, o);
    hide BlockPermutation, Flat, Offset, Distinct;
    assert perm[Offset(g, k) + o] == Offset(f, pi[k]) + o;
  }

  /** Two splits give one family the same spans if they stand at its place in each. */
  lemma SameBlock(g: seq<Family>, f: seq<Family>, v: seq<TenureSpan>, w: seq<TenureSpan>, k: nat, l: nat)
    requires k < |g| && l < |f| && g[k] == f[l] && |v| == |Flat(g)| && |w| == |Flat(f)|
    requires Offset(g, k) + |g[k].spans| <= |v| && Offset(f, l) + |g[k].spans| <= |w|
    requires forall i :: Offset(g, k) <= i < Offset(g, k) + |g[k].spans| ==> v[i] == w[i - Offset(g, k) + Offset(f, l)]
    ensures SplitBack(g, v)[k] == SplitBack(f, w)[l]
  {
    hide SplitBack, Flat, Offset;
    SplitBackAt(g, v, k);
    SplitBackAt(f, w, l);
    var x, y, size := Offset(g, k), Offset(f, l), |g[k].spans|;
    assert v[x..x + size] == w[y..y + size];
  }
}
