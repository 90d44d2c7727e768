/** Counterpart clipping: where exactly one side of an overlap states its date, the
    other side's quantized edge yields to it. */
module SeatClipping {
  import opened Ordering
  import opened Terms
  import opened Tenure

  datatype CapacityPeriod = CapacityPeriod(validFrom: Date, validTo: Option<Date>, maxHolders: Option<nat>)

  /** Seat to its capacity periods; a seat left out holds one. */
  type Capacity = map<(string, string), seq<CapacityPeriod>>

  datatype Reason =
    | BothDated
    | NeitherDated
    | PredecessorOutlivesSuccessor
    | StartLeavesBiennium
    | Degenerate
    | MultiHolderPeriod

  datatype UnclippedOverlap = UnclippedOverlap(seat: (string, string), memberA: string, memberB: string, reason: Reason)

  datatype SeatClipResult = SeatClipResult(spans: seq<TenureSpan>, unclipped: seq<UnclippedOverlap>)

  predicate SingleHolder(s: TenureSpan) { s.kind == KIND_SENATE || s.kind == KIND_HOUSE }

  function Max(a: int, b: int): int { if a < b then b else a }
  function Min(a: int, b: int): int { if a < b then a else b }

  // ----- Predicates on a pair

  predicate Overlaps(a: TenureSpan, b: TenureSpan) {
    if b.validTo.Some? && a.validFrom > b.validTo.value then false
    else if a.validTo.Some? && b.validFrom > a.validTo.value then false
    else a.validTo != Some(b.validFrom) && b.validTo != Some(a.validFrom)
  }

  predicate StatedStart(s: TenureSpan) { s.startBasis == Dated }

  /** The earliest the span's stated end can be, if it states one. */
  function StatedExit(s: TenureSpan): Option<Date> {
    if s.endBasis == Dated then s.ValidToEarliest() else None
  }

  predicate DayStart(s: TenureSpan) { s.ValidFromLatest() == s.validFrom }

  predicate DayEnd(s: TenureSpan) { s.validTo.Some? && s.ValidToEarliest() == s.validTo }

  /** `_tenure_order(a) <= _tenure_order(b)` */
  predicate TenureLe(a: TenureSpan, b: TenureSpan) {
    a.validFrom < b.validFrom || (a.validFrom == b.validFrom && a.EndOrOpen() <= b.EndOrOpen())
  }

  predicate MultiHolder(capacity: Capacity, a: TenureSpan, b: TenureSpan) {
    a.Seat() in capacity &&
    var start := Max(a.validFrom, b.validFrom);
    var end := Min(a.EndOrOpen(), b.EndOrOpen());
    exists k :: 0 <= k < |capacity[a.Seat()]| && Admits(capacity[a.Seat()][k], start, end)
  }

  predicate Admits(p: CapacityPeriod, start: int, end: int) {
    && (p.maxHolders.None? || p.maxHolders.value > 1)
    && p.validFrom <= end
    && start <= (if p.validTo.Some? then p.validTo.value else OPEN)
  }

  // ----- Moving one edge

  function ClosedAt(s: TenureSpan, boundary: Date): TenureSpan {
    var window := if s.startWindowEnd.None? then None else
                    var w := Min(s.startWindowEnd.value, boundary);
                    if w == s.validFrom then None else Some(w);
    s.(validTo := Some(boundary), isActive := false, endBasis := Derived,
       startWindowEnd := window, endWindowStart := None)
  }

  function OpenedAt(s: TenureSpan, boundary: Date): TenureSpan {
    var window := if s.endWindowStart.None? then None else
                    var w := Max(s.endWindowStart.value, boundary);
                    if Some(w) == s.validTo then None else Some(w);
    s.(validFrom := boundary, startBasis := Derived, startWindowEnd := None, endWindowStart := window)
  }

  // ----- Ruling on a pair

  /** What `_resolve_move` leaves the old seat as. */
  function ResolvedMove(old_: TenureSpan, new_: TenureSpan): TenureSpan {
    var boundary := Min(new_.ValidFromLatest(), old_.EndOrOpen());
    if old_.Seat() == new_.Seat()
       || !Overlaps(old_, new_)
       || !(old_.endBasis == Observed && StatedStart(new_))
       || boundary <= old_.validFrom
       || old_.EndOrOpen() > new_.EndOrOpen()
    then old_
    else ClosedAt(old_, boundary)
  }

  /** Both spans after `_resolve_pair`, and its refusal if it refused. */
  datatype Resolved = Resolved(a: TenureSpan, b: TenureSpan, reason: Option<Reason>)

  function ResolvedPair(a: TenureSpan, b: TenureSpan, capacity: Capacity): Resolved {
    if a.memberId == b.memberId || !Overlaps(a, b) then Resolved(a, b, None)
    else if MultiHolder(capacity, a, b) then Resolved(a, b, Some(MultiHolderPeriod))
    else if TenureLe(a, b) then Handoff(a, b)
    else var r := Handoff(b, a); Resolved(r.b, r.a, r.reason)
  }

  function Handoff(pred: TenureSpan, succ: TenureSpan): Resolved {
    var exit := StatedExit(pred);
    if exit.Some? && StatedStart(succ) then
      if DayEnd(pred) && !DayStart(succ) && succ.validFrom <= pred.validTo.value <= succ.ValidFromLatest() then
        OpenSuccessor(pred, succ, exit.value)
      else if DayStart(succ) && !DayEnd(pred) && exit.value <= succ.validFrom <= pred.EndOrOpen() then
        ClosePredecessor(pred, succ)
      else
        Resolved(pred, succ, Some(BothDated))
    else if exit.None? && !StatedStart(succ) then
      Resolved(pred, succ, Some(NeitherDated))
    else if exit.Some? then
      OpenSuccessor(pred, succ, exit.value)
    else
      ClosePredecessor(pred, succ)
  }

  function OpenSuccessor(pred: TenureSpan, succ: TenureSpan, exit: Date): Resolved {
    var boundary := Max(exit, succ.validFrom);
    if !InBiennium(boundary, succ.startBiennium) then Resolved(pred, succ, Some(StartLeavesBiennium))
    else if succ.validTo.Some? && boundary >= succ.validTo.value then
      Resolved(pred, succ, Some(PredecessorOutlivesSuccessor))
    else Resolved(pred, OpenedAt(succ, boundary), None)
  }

  function ClosePredecessor(pred: TenureSpan, succ: TenureSpan): Resolved {
    var boundary := Min(succ.ValidFromLatest(), pred.EndOrOpen());
    if pred.EndOrOpen() > succ.EndOrOpen() then Resolved(pred, succ, Some(PredecessorOutlivesSuccessor))
    else if boundary <= pred.validFrom then Resolved(pred, succ, Some(Degenerate))
    else Resolved(ClosedAt(pred, boundary), succ, None)
  }

  // ----- The pass, as a function of its input

  type Pair = (nat, nat)

  ghost predicate Within(pairs: seq<Pair>, n: nat) {
    forall k :: 0 <= k < |pairs| ==> pairs[k].0 < n && pairs[k].1 < n
  }

  function Row(i: nat, rest: seq<nat>): seq<Pair> {
    if rest == [] then [] else [(i, rest[0])] + Row(i, rest[1..])
  }

  /** The pairs a nested loop over `ordered` visits, in its order. */
  function PairsOf(ordered: seq<nat>): seq<Pair> {
    if ordered == [] then [] else Row(ordered[0], ordered[1..]) + PairsOf(ordered[1..])
  }

  function MoveStep(work: seq<TenureSpan>, p: Pair): (r: seq<TenureSpan>)
    requires p.0 < |work| && p.1 < |work|
    ensures |r| == |work|
  {
    work[p.0 := ResolvedMove(work[p.0], work[p.1])]
  }

  function Moves(work: seq<TenureSpan>, pairs: seq<Pair>): (r: seq<TenureSpan>)
    requires Within(pairs, |work|)
    ensures |r| == |work|
    decreases |pairs|
  {
    if pairs == [] then work else Moves(MoveStep(work, pairs[0]), pairs[1..])
  }

  function PairStep(work: seq<TenureSpan>, p: Pair, capacity: Capacity): (r: seq<TenureSpan>)
    requires p.0 < |work| && p.1 < |work|
    ensures |r| == |work|
  {
    var r := ResolvedPair(work[p.0], work[p.1], capacity);
    work[p.0 := r.a][p.1 := r.b]
  }

  function Refusal(work: seq<TenureSpan>, p: Pair, capacity: Capacity): seq<UnclippedOverlap>
    requires p.0 < |work| && p.1 < |work|
  {
    var a, b := work[p.0], work[p.1];
    var reason := ResolvedPair(a, b, capacity).reason;
    if reason.None? then [] else [UnclippedOverlap(a.Seat(), a.memberId, b.memberId, reason.value)]
  }

  function Handoffs(work: seq<TenureSpan>, pairs: seq<Pair>, capacity: Capacity): (r: SeatClipResult)
    requires Within(pairs, |work|)
    ensures |r.spans| == |work|
    decreases |pairs|
  {
    if pairs == [] then SeatClipResult(work, []) else
      var rest := Handoffs(PairStep(work, pairs[0], capacity), pairs[1..], capacity);
      SeatClipResult(rest.spans, Refusal(work, pairs[0], capacity) + rest.unclipped)
  }

  /** The sort key of a position: the tenure there, then the group's tie-break. */
  function PositionKey(work: seq<TenureSpan>, tie: TenureSpan -> SortKey): nat -> SortKey {
    (i: nat) => if i < |work| then [Num(work[i].validFrom), Num(work[i].EndOrOpen())] + tie(work[i]) else []
  }

  /** One group's positions, oldest tenure first. */
  function Ordered(work: seq<TenureSpan>, group: TenureSpan -> bool, tie: TenureSpan -> SortKey): (r: seq<nat>)
    ensures forall k :: 0 <= k < |r| ==> r[k] < |work| && group(work[r[k]])
    ensures Within(PairsOf(r), |work|)
  {
    var found := Positions(work, group);
    var r := SortBy<nat>(found, PositionKey(work, tie));
    assert forall k :: 0 <= k < |r| ==> r[k] < |work| && group(work[r[k]]) by {
      SortBySorts<nat>(found, PositionKey(work, tie));
      forall k | 0 <= k < |r| ensures r[k] < |work| && group(work[r[k]]) {
        assert r[k] in r;
        PositionsAre(work, group, r[k]);
      }
    }
    PairsWithin(r, |work|);
    r
  }

  lemma {:induction false} RowWithin(i: nat, rest: seq<nat>, n: nat)
    requires i < n && forall k :: 0 <= k < |rest| ==> rest[k] < n
    ensures Within(Row(i, rest), n)
  {
    if rest != [] { RowWithin(i, rest[1..], n); }
  }

  lemma {:induction false} PairsWithin(ordered: seq<nat>, n: nat)
    requires forall k :: 0 <= k < |ordered| ==> ordered[k] < n
    ensures Within(PairsOf(ordered), n)
  {
    if ordered != [] {
      RowWithin(ordered[0], ordered[1..], n);
      PairsWithin(ordered[1..], n);
    }
  }

  lemma {:induction false} RowMembers(i: nat, rest: seq<nat>, p: Pair)
    requires p in Row(i, rest)
    ensures p.0 == i && p.1 in rest
  {
    if p != (i, rest[0]) { RowMembers(i, rest[1..], p); }
  }

  /** A group's pairs join members of the group. */
  lemma {:induction false} PairMembers(ordered: seq<nat>, p: Pair)
    requires p in PairsOf(ordered)
    ensures p.0 in ordered && p.1 in ordered
  {
    if p in Row(ordered[0], ordered[1..]) {
      RowMembers(ordered[0], ordered[1..], p);
    } else {
      PairMembers(ordered[1..], p);
    }
  }

  function OfMember(m: string): TenureSpan -> bool {
    (s: TenureSpan) => SingleHolder(s) && s.memberId == m
  }

  function SeatTie(s: TenureSpan): SortKey { [Text(s.kind), Text(s.discriminator)] }

  /** Only principals are seat counterparts. */
  function OfSeat(seat: (string, string)): TenureSpan -> bool {
    (s: TenureSpan) => SingleHolder(s) && s.membership == Principal && s.Seat() == seat
  }

  function MemberTie(s: TenureSpan): SortKey { [Text(s.memberId)] }

  function MemberPairs(work: seq<TenureSpan>, m: string): (r: seq<Pair>)
    ensures Within(r, |work|)
  {
    PairsOf(Ordered(work, OfMember(m), SeatTie))
  }

  function SeatPairs(work: seq<TenureSpan>, seat: (string, string)): (r: seq<Pair>)
    ensures Within(r, |work|)
  {
    PairsOf(Ordered(work, OfSeat(seat), MemberTie))
  }

  function MemberPass(work: seq<TenureSpan>, members: seq<string>): (r: seq<TenureSpan>)
    ensures |r| == |work|
    decreases |members|
  {
    if members == [] then work else MemberPass(Moves(work, MemberPairs(work, members[0])), members[1..])
  }

  function SeatPass(work: seq<TenureSpan>, seats: seq<(string, string)>, capacity: Capacity): (r: SeatClipResult)
    ensures |r.spans| == |work|
    decreases |seats|
  {
    if seats == [] then SeatClipResult(work, []) else
      var first := Handoffs(work, SeatPairs(work, seats[0]), capacity);
      var rest := SeatPass(first.spans, seats[1..], capacity);
      SeatClipResult(rest.spans, first.unclipped + rest.unclipped)
  }

  /** `sorted(members.items())`: the members with a single-holder span. */
  function MembersOf(spans: seq<TenureSpan>): seq<string> {
    SortedTexts(set s | s in spans && SingleHolder(s) :: s.memberId)
  }

  function DiscriminatorsOf(spans: seq<TenureSpan>, kind: string): seq<(string, string)> {
    Seats(kind, SortedTexts(set s | s in spans && s.kind == kind && SingleHolder(s) && s.membership == Principal :: s.discriminator))
  }

  function Seats(kind: string, discriminators: seq<string>): seq<(string, string)> {
    seq(|discriminators|, k requires 0 <= k < |discriminators| => (kind, discriminators[k]))
  }

  /** `sorted(seats.items())`: House seats, then Senate seats, by discriminator. */
  function SeatsOf(spans: seq<TenureSpan>): seq<(string, string)> {
    DiscriminatorsOf(spans, KIND_HOUSE) + DiscriminatorsOf(spans, KIND_SENATE)
  }

  /** The whole pass: the member axis first, then the seats on what it leaves. */
  function Clipped(spans: seq<TenureSpan>, capacity: Capacity): (r: SeatClipResult)
    ensures |r.spans| == |spans|
  {
    var moved := MemberPass(spans, MembersOf(spans));
    SeatPass(moved, SeatsOf(moved), capacity)
  }

  // ----- The pass, in place

  method ResolveMove(work: array<TenureSpan>, i: nat, j: nat)
    requires i < work.Length && j < work.Length
    modifies work
    ensures work[..] == MoveStep(old(work[..]), (i, j))
  {
    var old_, new_ := work[i], work[j];
    if old_.Seat() == new_.Seat() { return; }
    if !Overlaps(old_, new_) { return; }
    if !(old_.endBasis == Observed && StatedStart(new_)) { return; }
    var boundary := Min(new_.ValidFromLatest(), old_.EndOrOpen());
    if boundary <= old_.validFrom { return; }
    if old_.EndOrOpen() > new_.EndOrOpen() { return; }
    work[i] := ClosedAt(old_, boundary);
  }

  method ResolvePair(work: array<TenureSpan>, i: nat, j: nat, capacity: Capacity) returns (reason: Option<Reason>)
    requires i < work.Length && j < work.Length && i != j
    modifies work
    ensures work[..] == PairStep(old(work[..]), (i, j), capacity)
    ensures reason == ResolvedPair(old(work[i]), old(work[j]), capacity).reason
  {
    hide Overlaps, MultiHolder, TenureLe, Handoff;
    var a, b := work[i], work[j];
    if a.memberId == b.memberId { return None; }
    if !Overlaps(a, b) { return None; }
    if MultiHolder(capacity, a, b) { return Some(MultiHolderPeriod); }
    var predPos, succPos := if TenureLe(a, b) then i else j, if TenureLe(a, b) then j else i;
    reason := ResolveHandoff(work, predPos, succPos);
  }

  /** `_resolve_pair` from where it knows the predecessor. */
  method ResolveHandoff(work: array<TenureSpan>, predPos: nat, succPos: nat) returns (reason: Option<Reason>)
    requires predPos < work.Length && succPos < work.Length && predPos != succPos
    modifies work
    ensures var h := Handoff(old(work[predPos]), old(work[succPos]));
            reason == h.reason && work[..] == old(work[..])[predPos := h.a][succPos := h.b]
  {
    hide ClosedAt, OpenedAt, InBiennium, DayStart;
    hide TenureSpan.ValidFromLatest, TenureSpan.ValidToEarliest;
    var pred, succ := work[predPos], work[succPos];
    var predExit, succDatedStart := StatedExit(pred), StatedStart(succ);
    if predExit.Some? && succDatedStart {
      if DayEnd(pred) && !DayStart(succ) && succ.validFrom <= pred.validTo.value <= succ.ValidFromLatest() {
        succDatedStart := false;
      } else if DayStart(succ) && !DayEnd(pred) && pred.ValidToEarliest().value <= succ.validFrom <= pred.EndOrOpen() {
        predExit := None;
      } else {
        return Some(BothDated);
      }
    }
    if predExit.None? && !succDatedStart { return Some(NeitherDated); }
    if predExit.Some? {
      var boundary := Max(predExit.value, succ.validFrom);
      if !InBiennium(boundary, succ.startBiennium) { return Some(StartLeavesBiennium); }
      if succ.validTo.Some? && boundary >= succ.validTo.value { return Some(PredecessorOutlivesSuccessor); }
      work[succPos] := OpenedAt(succ, boundary);
      return None;
    }
    var boundary := Min(succ.ValidFromLatest(), pred.EndOrOpen());
    if pred.EndOrOpen() > succ.EndOrOpen() { return Some(PredecessorOutlivesSuccessor); }
    if boundary <= pred.validFrom { return Some(Degenerate); }
    work[predPos] := ClosedAt(pred, boundary);
    return None;
  }

  /** What the nested loop has still to visit from the pair `(k, l)` on. */
  ghost function Remaining(ordered: seq<nat>, k: nat, l: nat): seq<Pair>
    requires k < |ordered| && l <= |ordered|
  {
    Row(ordered[k], ordered[l..]) + PairsOf(ordered[k + 1..])
  }

  lemma RemainingSteps(ordered: seq<nat>, k: nat, l: nat, n: nat)
    requires k < |ordered| && l <= |ordered| && forall m :: 0 <= m < |ordered| ==> ordered[m] < n
    ensures Within(Remaining(ordered, k, l), n)
    ensures PairsOf(ordered[k..]) == Remaining(ordered, k, k + 1)
    ensures Remaining(ordered, k, |ordered|) == PairsOf(ordered[k + 1..])
    ensures l < |ordered| ==> Remaining(ordered, k, l) == [(ordered[k], ordered[l])] + Remaining(ordered, k, l + 1)
  {
    RowWithin(ordered[k], ordered[l..], n);
    PairsWithin(ordered[k + 1..], n);
    assert ordered[k..][1..] == ordered[k + 1..];
    assert Row(ordered[k], []) + PairsOf(ordered[k + 1..]) == PairsOf(ordered[k + 1..]);
    if l < |ordered| { RemainingHead(ordered, k, l); }
  }

  lemma RemainingHead(ordered: seq<nat>, k: nat, l: nat)
    requires k < |ordered| && l < |ordered|
    ensures Remaining(ordered, k, l) == [(ordered[k], ordered[l])] + Remaining(ordered, k, l + 1)
  {
    assert ordered[l..][1..] == ordered[l + 1..];
    var rest := PairsOf(ordered[k + 1..]);
    hide PairsOf;
    assert Row(ordered[k], ordered[l..]) == [(ordered[k], ordered[l])] + Row(ordered[k], ordered[l + 1..]);
  }

  method ResolveMoves(work: array<TenureSpan>, ordered: seq<nat>)
    requires forall k :: 0 <= k < |ordered| ==> ordered[k] < work.Length
    requires Within(PairsOf(ordered), work.Length)
    modifies work
    ensures work[..] == Moves(old(work[..]), PairsOf(ordered))
  {
    hide MoveStep, PairsOf, Row, Remaining;
    assert ordered[0..] == ordered;
    for k := 0 to |ordered|
      invariant Within(PairsOf(ordered[k..]), work.Length)
      invariant Moves(work[..], PairsOf(ordered[k..])) == Moves(old(work[..]), PairsOf(ordered))
    {
      RemainingSteps(ordered, k, k + 1, work.Length);
      assert ordered[k..] != [];
      for l := k + 1 to |ordered|
        invariant Within(Remaining(ordered, k, l), work.Length)
        invariant Moves(work[..], Remaining(ordered, k, l)) == Moves(old(work[..]), PairsOf(ordered))
      {
        RemainingSteps(ordered, k, l, work.Length);
        RemainingSteps(ordered, k, l + 1, work.Length);
        assert Remaining(ordered, k, l)[1..] == Remaining(ordered, k, l + 1);
        ResolveMove(work, ordered[k], ordered[l]);
      }
      RemainingSteps(ordered, k, |ordered|, work.Length);
    }
    NoPairs(ordered);
  }

  lemma NoPairs(ordered: seq<nat>)
    ensures PairsOf(ordered[|ordered|..]) == []
  {
  }

  /** The end result, from the refusals so far and the pairs still to visit. */
  ghost function Resumed(sofar: seq<UnclippedOverlap>, work: seq<TenureSpan>, pairs: seq<Pair>, capacity: Capacity): SeatClipResult
    requires Within(pairs, |work|)
  {
    var rest := Handoffs(work, pairs, capacity);
    SeatClipResult(rest.spans, sofar + rest.unclipped)
  }

  lemma ResumedStep(sofar: seq<UnclippedOverlap>, work: seq<TenureSpan>, p: Pair, pairs: seq<Pair>, capacity: Capacity)
    requires Within([p] + pairs, |work|) && Within(pairs, |work|) && p.0 < |work| && p.1 < |work|
    ensures Resumed(sofar, work, [p] + pairs, capacity)
         == Resumed(sofar + Refusal(work, p, capacity), PairStep(work, p, capacity), pairs, capacity)
  {
    assert ([p] + pairs)[1..] == pairs;
    hide PairStep, Refusal;
  }

  method ResolvePairs(work: array<TenureSpan>, ordered: seq<nat>, capacity: Capacity)
    returns (unclipped: seq<UnclippedOverlap>)
    requires forall k :: 0 <= k < |ordered| ==> ordered[k] < work.Length
    requires Distinct(ordered)
    requires Within(PairsOf(ordered), work.Length)
    modifies work
    ensures SeatClipResult(work[..], unclipped) == Handoffs(old(work[..]), PairsOf(ordered), capacity)
  {
    hide PairStep, PairsOf, Row, Remaining, ResolvedPair, Resumed;
    unclipped := [];
    ghost var target := Resumed([], work[..], PairsOf(ordered), capacity);
    assert ordered[0..] == ordered;
    for k := 0 to |ordered|
      invariant Within(PairsOf(ordered[k..]), work.Length)
      invariant Resumed(unclipped, work[..], PairsOf(ordered[k..]), capacity) == target
    {
      RemainingSteps(ordered, k, k + 1, work.Length);
      for l := k + 1 to |ordered|
        invariant Within(Remaining(ordered, k, l), work.Length)
        invariant Resumed(unclipped, work[..], Remaining(ordered, k, l), capacity) == target
      {
        RemainingSteps(ordered, k, l, work.Length);
        RemainingSteps(ordered, k, l + 1, work.Length);
        ResumedStep(unclipped, work[..], (ordered[k], ordered[l]), Remaining(ordered, k, l + 1), capacity);
        var a, b := work[ordered[k]], work[ordered[l]];
        ghost var sofar := unclipped + Refusal(work[..], (ordered[k], ordered[l]), capacity);
        var reason := ResolvePair(work, ordered[k], ordered[l], capacity);
        if reason.Some? {
          unclipped := unclipped + [UnclippedOverlap(a.Seat(), a.memberId, b.memberId, reason.value)];
        }
        assert unclipped == sofar;
      }
      RemainingSteps(ordered, k, |ordered|, work.Length);
    }
    NoPairs(ordered);
    ResumedDone(unclipped, work[..], capacity);
    ResumedFrom(old(work[..]), PairsOf(ordered), capacity);
  }

  lemma ResumedDone(sofar: seq<UnclippedOverlap>, work: seq<TenureSpan>, capacity: Capacity)
    ensures Resumed(sofar, work, [], capacity) == SeatClipResult(work, sofar)
  {
    assert sofar + [] == sofar;
  }

  lemma ResumedFrom(work: seq<TenureSpan>, pairs: seq<Pair>, capacity: Capacity)
    requires Within(pairs, |work|)
    ensures Resumed([], work, pairs, capacity) == Handoffs(work, pairs, capacity)
  {
    assert [] + Handoffs(work, pairs, capacity).unclipped == Handoffs(work, pairs, capacity).unclipped;
  }

  method ClipSeatCounterparts(spans: seq<TenureSpan>, capacity: Capacity) returns (r: SeatClipResult)
    ensures r == Clipped(spans, capacity)
  {
    hide Moves, Handoffs, Ordered, MembersOf, SeatsOf, PairsOf;
    var work := new TenureSpan[|spans|](i requires 0 <= i < |spans| => spans[i]);
    assert work[..] == spans;
    var members := MembersOf(spans);
    for k := 0 to |members|
      invariant MemberPass(work[..], members[k..]) == MemberPass(spans, members)
    {
      assert members[k..][1..] == members[k + 1..];
      ResolveMoves(work, Ordered(work[..], OfMember(members[k]), SeatTie));
    }
    var seats := SeatsOf(work[..]);
    var unclipped := [];
    ghost var target := SeatPass(work[..], seats, capacity);
    assert seats[0..] == seats;
    for k := 0 to |seats|
      invariant var rest := SeatPass(work[..], seats[k..], capacity);
                target == SeatClipResult(rest.spans, unclipped + rest.unclipped)
    {
      assert seats[k..][1..] == seats[k + 1..];
      var ordered := Ordered(work[..], OfSeat(seats[k]), MemberTie);
      OrderedDistinct(work[..], OfSeat(seats[k]), MemberTie);
      var refused := ResolvePairs(work, ordered, capacity);
      unclipped := unclipped + refused;
    }
    return SeatClipResult(work[..], unclipped);
  }

  /** No position is visited twice in one group. */
  lemma OrderedDistinct(work: seq<TenureSpan>, group: TenureSpan -> bool, tie: TenureSpan -> SortKey)
    ensures Distinct(Ordered(work, group, tie))
    ensures forall i: nat :: i in Ordered(work, group, tie) <==> i < |work| && group(work[i])
  {
    var found := Positions(work, group);
    SortBySorts<nat>(found, PositionKey(work, tie));
    FilterDistinct<nat>(Indices(|work|), (i: nat) => i < |work| && group(work[i]));
    SameMultisetDistinct(found, Ordered(work, group, tie));
    forall i: nat ensures i in Ordered(work, group, tie) <==> i < |work| && group(work[i]) {
      PositionsAre(work, group, i);
    }
  }

  lemma OrderedSorts(work: seq<TenureSpan>, group: TenureSpan -> bool, tie: TenureSpan -> SortKey)
    ensures SortedBy(Ordered(work, group, tie), PositionKey(work, tie))
  {
    SortBySorts<nat>(Positions(work, group), PositionKey(work, tie));
  }
}
