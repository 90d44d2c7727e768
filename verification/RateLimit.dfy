/** The courtesy rate limiter: slots reserved under a lock, waited for outside it. Times are
    seconds as reals. */
module RateLimit {
  import opened Ordering

  function Max(x: real, y: real): real { if x < y then y else x }

  /** The slot a reservation gets: now, or the first one free. */
  function SlotFor(now: real, next: real): real { Max(now, next) }

  class RateLimiter {
    var min: real
    var next: real

    ghost predicate Valid()
      reads this
    {
      min >= 0.0
    }

    constructor (minInterval: real)
      ensures Valid() && min == Max(0.0, minInterval) && next == 0.0
    {
      min, next := Max(0.0, minInterval), 0.0;
    }

    /** A negative interval disables the limiter. */
    method SetInterval(minInterval: real)
      modifies this`min
      ensures Valid() && min == Max(0.0, minInterval)
    {
      min := Max(0.0, minInterval);
    }

    /** One caller alone: the clock reads `now` under the lock and `later` after it. The
        caller waits until its slot, and the next one may not have a slot within `min`. */
    method Acquire(now: real, later: real) returns (delay: real)
      requires Valid() && now <= later
      modifies this`next
      ensures old(min) == 0.0 ==> delay == 0.0 && next == old(next)
      ensures old(min) > 0.0 ==>
                && next - min >= now && next - min >= old(next) && (next - min == now || next - min == old(next))
                && later + delay >= next - min
                && (delay > 0.0 ==> later + delay == next - min)
      ensures delay >= 0.0
    {
      if min <= 0.0 { return 0.0; }
      var slot := SlotFor(now, next);
      next := slot + min;
      delay := slot - later;
      if delay <= 0.0 { delay := 0.0; }
    }
  }

  // ----- Callers on any number of threads

  /** Where a call is. `Holding` is inside the lock, its clock read. The ticket is for the
      argument only: which reservation in the log is the caller's own. */
  datatype Caller =
    | Calling
    | Holding(now: real)
    | Reserved(slot: real, ticket: nat)
    | Asleep(slot: real, ticket: nat)
    | Passed(slot: real, ticket: nat, at: real)
    | Unlimited
  {
    predicate Ticketed() { Reserved? || Asleep? || Passed? }
  }

  /** One reservation, as made: by whom, the clock read, the interval then in force, the slot. */
  datatype Reservation = Reservation(caller: nat, now: real, interval: real, slot: real)

  datatype Limiter = Limiter(
    clock: real,
    min: real,
    next: real,
    lock: Option<nat>,
    callers: map<nat, Caller>,
    log: seq<Reservation>)

  datatype Step =
    | Tick(elapsed: real)
    | Set(interval: real)
    | Call(id: nat)
    | Enter(id: nat)
    | Reserve(id: nat)
    | Check(id: nat)
    | Wake(id: nat)

  ghost predicate Enabled(s: Limiter, step: Step) {
    match step
    case Tick(elapsed) => elapsed >= 0.0
    case Set(_) => true
    case Call(id) => id !in s.callers
    case Enter(id) => id in s.callers && s.callers[id].Calling? && s.lock.None?
    case Reserve(id) => id in s.callers && s.callers[id].Holding?
    case Check(id) => id in s.callers && s.callers[id].Reserved?
    case Wake(id) => id in s.callers && s.callers[id].Asleep? && s.clock >= s.callers[id].slot
  }

  function Put(s: Limiter, id: nat, c: Caller): Limiter { s.(callers := s.callers[id := c]) }

  /** A disabled limiter lets a caller through unlocked; a sleeper sleeps the delay left
      when it looked at the clock again, so until its slot. */
  ghost function After(s: Limiter, step: Step): Limiter
    requires Enabled(s, step)
  {
    match step
    case Tick(elapsed) => s.(clock := s.clock + elapsed)
    case Set(interval) => s.(min := Max(0.0, interval))
    case Call(id) => Put(s, id, if s.min <= 0.0 then Unlimited else Calling)
    case Enter(id) => Put(s.(lock := Some(id)), id, Holding(s.clock))
    case Reserve(id) =>
      var now := s.callers[id].now;
      var slot := SlotFor(now, s.next);
      Put(s.(next := slot + s.min, lock := None, log := s.log + [Reservation(id, now, s.min, slot)]), id, Reserved(slot, |s.log|))
    case Check(id) =>
      var c := s.callers[id];
      Put(s, id, if c.slot - s.clock > 0.0 then Asleep(c.slot, c.ticket) else Passed(c.slot, c.ticket, s.clock))
    case Wake(id) => Put(s, id, Passed(s.callers[id].slot, s.callers[id].ticket, s.clock))
  }

  ghost predicate Initial(s: Limiter) {
    s.min >= 0.0 && s.next == 0.0 && s.lock == None && s.callers == map[] && s.log == []
  }

  /** Each slot is the later of its caller's clock and the end of the slot before. */
  ghost predicate Chained(log: seq<Reservation>) {
    forall k :: 0 <= k < |log| ==>
      log[k].interval >= 0.0 && log[k].slot == SlotFor(log[k].now, NextAt(log, k))
  }

  function NextAt(log: seq<Reservation>, k: nat): real
    requires k <= |log|
  {
    if k == 0 then 0.0 else log[k - 1].slot + log[k - 1].interval
  }

  /** Reservations read a monotone clock in the order they are made. */
  ghost predicate InOrder(log: seq<Reservation>, clock: real) {
    && (forall k :: 0 <= k < |log| ==> log[k].now <= clock)
    && (forall i, k :: 0 <= i < k < |log| ==> log[i].now <= log[k].now)
  }

  /** The reservation is the caller's own, and so nobody else's. */
  ghost predicate Own(log: seq<Reservation>, id: nat, c: Caller)
    requires c.Ticketed()
  {
    c.ticket < |log| && log[c.ticket].caller == id && log[c.ticket].slot == c.slot
  }

  ghost predicate CallerOk(s: Limiter, id: nat, c: Caller) {
    && (c.Holding? ==> s.lock == Some(id) && c.now <= s.clock && forall k :: 0 <= k < |s.log| ==> s.log[k].now <= c.now)
    && (c.Ticketed() ==> Own(s.log, id, c))
    && (c.Passed? ==> c.slot <= c.at <= s.clock)
  }

  /** Every reservation was made by a caller who still holds its ticket. */
  ghost predicate Held(s: Limiter, k: nat)
    requires k < |s.log|
  {
    var id := s.log[k].caller;
    id in s.callers && s.callers[id].Ticketed() && s.callers[id].ticket == k
  }

  ghost predicate Inv(s: Limiter) {
    && s.min >= 0.0
    && Chained(s.log) && InOrder(s.log, s.clock) && s.next == NextAt(s.log, |s.log|)
    && (s.lock.Some? ==> s.lock.value in s.callers && s.callers[s.lock.value].Holding?)
    && (forall id :: id in s.callers ==> CallerOk(s, id, s.callers[id]))
    && (forall k :: 0 <= k < |s.log| ==> Held(s, k))
  }

  lemma ChainGrows(log: seq<Reservation>, r: Reservation)
    requires Chained(log) && r.interval >= 0.0 && r.slot == SlotFor(r.now, NextAt(log, |log|))
    ensures Chained(log + [r]) && NextAt(log + [r], |log| + 1) == r.slot + r.interval
  {
    hide SlotFor;
    var after := log + [r];
    forall k | 0 <= k < |after| ensures after[k].interval >= 0.0 && after[k].slot == SlotFor(after[k].now, NextAt(after, k)) {
      if k < |log| { assert after[k] == log[k]; }
      assert NextAt(after, k) == NextAt(log, k);
    }
  }

  lemma OrderGrows(log: seq<Reservation>, r: Reservation, clock: real)
    requires InOrder(log, clock) && r.now <= clock && forall k :: 0 <= k < |log| ==> log[k].now <= r.now
    ensures InOrder(log + [r], clock)
  {
  }

  lemma ReserveKeepsInv(s: Limiter, id: nat)
    requires Inv(s) && Enabled(s, Reserve(id))
    ensures Inv(After(s, Reserve(id)))
  {
    hide SlotFor, Chained, InOrder, NextAt;
    var t := After(s, Reserve(id));
    var r := Reservation(id, s.callers[id].now, s.min, t.callers[id].slot);
    assert CallerOk(s, id, s.callers[id]);
    ChainGrows(s.log, r);
    OrderGrows(s.log, r, s.clock);
    forall x | x in t.callers ensures CallerOk(t, x, t.callers[x]) {
      if x != id { assert CallerOk(s, x, s.callers[x]); }
    }
    forall k | 0 <= k < |t.log| ensures Held(t, k) {
      if k < |s.log| { assert Held(s, k) && t.log[k] == s.log[k]; }
    }
  }

  lemma ClockAdvances(log: seq<Reservation>, clock: real, later: real)
    requires InOrder(log, clock) && clock <= later
    ensures InOrder(log, later)
  {
  }

  lemma BystanderOk(s: Limiter, t: Limiter, id: nat, c: Caller)
    requires CallerOk(s, id, c) && t.log == s.log && s.clock <= t.clock && (c.Holding? ==> t.lock == s.lock)
    ensures CallerOk(t, id, c)
  {
  }

  /** What a step does to the caller that takes it, the clock apart. */
  lemma CallerMoves(s: Limiter, step: Step)
    requires Inv(s) && Enabled(s, step) && !step.Reserve? && !step.Tick? && !step.Set?
    ensures var t := After(s, step);
            && t.log == s.log && t.clock == s.clock && t.next == s.next && t.min == s.min
            && t.callers == s.callers[step.id := t.callers[step.id]]
            && CallerOk(t, step.id, t.callers[step.id])
            && (if step.Enter? then t.lock == Some(step.id) && t.callers[step.id].Holding? else t.lock == s.lock)
  {
    hide Chained, NextAt;
    if step.id in s.callers { assert CallerOk(s, step.id, s.callers[step.id]); }
  }

  /** A step that makes no reservation keeps each ticket with its caller. */
  lemma TicketsStay(s: Limiter, step: Step, k: nat)
    requires Enabled(s, step) && !step.Reserve? && k < |s.log| && Held(s, k)
    ensures k < |After(s, step).log| && Held(After(s, step), k)
  {
  }

  lemma StepKeepsInv(s: Limiter, step: Step)
    requires Inv(s) && Enabled(s, step)
    ensures Inv(After(s, step))
  {
    hide SlotFor, Chained, InOrder, NextAt, CallerOk, Held;
    var t := After(s, step);
    if step.Reserve? {
      ReserveKeepsInv(s, step.id);
    } else {
      ClockAdvances(s.log, s.clock, t.clock);
      forall k | 0 <= k < |t.log| ensures Held(t, k) { TicketsStay(s, step, k); }
      if !step.Tick? && !step.Set? {
        CallerMoves(s, step);
        hide After, Enabled;
        forall x | x in t.callers && x != step.id ensures CallerOk(t, x, t.callers[x]) {
          NobodyElseHolds(s, step, x);
          BystanderOk(s, t, x, s.callers[x]);
        }
      } else {
        forall x | x in t.callers ensures CallerOk(t, x, t.callers[x]) { BystanderOk(s, t, x, s.callers[x]); }
      }
    }
  }

  lemma NobodyElseHolds(s: Limiter, step: Step, x: nat)
    requires Inv(s) && Enabled(s, step) && !step.Reserve? && x in s.callers
    ensures s.callers[x].Holding? ==> !step.Enter?
  {
    hide Chained, InOrder, NextAt;
    assert CallerOk(s, x, s.callers[x]);
  }

  ghost predicate Interleaving(states: seq<Limiter>, steps: seq<Step>) {
    && |states| == |steps| + 1
    && forall i :: 0 <= i < |steps| ==> Enabled(states[i], steps[i]) && states[i + 1] == After(states[i], steps[i])
  }

  lemma InitialInv(s: Limiter)
    requires Initial(s)
    ensures Inv(s)
  {
  }

  lemma StepKeepsLog(s: Limiter, step: Step)
    requires Enabled(s, step)
    ensures s.log <= After(s, step).log
  {
  }

  lemma {:induction false} InterleavingKeepsInv(states: seq<Limiter>, steps: seq<Step>, i: nat)
    requires Interleaving(states, steps) && Inv(states[0]) && i < |states|
    ensures Inv(states[i]) && states[0].log <= states[i].log
  {
    hide Enabled, After, Inv;
    if i > 0 {
      InterleavingKeepsInv(states, steps, i - 1);
      StepKeepsInv(states[i - 1], steps[i - 1]);
      StepKeepsLog(states[i - 1], steps[i - 1]);
    }
  }

  ghost predicate HasPassed(s: Limiter, id: nat) { id in s.callers && s.callers[id].Passed? }

  /** However the callers interleave, each slot follows from the reservation before it, and
      no caller is let through before the slot of its own reservation, which no other caller
      shares. */
  lemma NobodyPassesEarly(states: seq<Limiter>, steps: seq<Step>, i: nat)
    requires Interleaving(states, steps) && Initial(states[0]) && i < |states|
    ensures var s := states[i];
            && Chained(s.log) && InOrder(s.log, s.clock)
            && (forall id :: HasPassed(s, id) ==> Own(s.log, id, s.callers[id]) && s.log[s.callers[id].ticket].slot <= s.callers[id].at)
            && (forall x, y :: HasPassed(s, x) && HasPassed(s, y) && x != y ==> s.callers[x].ticket != s.callers[y].ticket)
  {
    InitialInv(states[0]);
    InterleavingKeepsInv(states, steps, i);
    hide Chained, InOrder, Interleaving;
    var s := states[i];
    forall id | HasPassed(s, id) ensures Own(s.log, id, s.callers[id]) && s.log[s.callers[id].ticket].slot <= s.callers[id].at {
      assert CallerOk(s, id, s.callers[id]);
    }
  }

  // ----- Where the slots fall

  /** The intervals in force from reservation j up to reservation k. */
  function Spread(log: seq<Reservation>, j: nat, k: nat): real
    requires j <= k <= |log|
    decreases k
  {
    if j == k then 0.0 else Spread(log, j, k - 1) + log[k - 1].interval
  }

  lemma SlotIsLater(now: real, next: real)
    ensures SlotFor(now, next) >= now && SlotFor(now, next) >= next
  {
  }

  /** Slots are at least the intervals between them apart. */
  lemma {:induction false} SlotsAreApart(log: seq<Reservation>, j: nat, k: nat)
    requires Chained(log) && j <= k < |log|
    ensures log[k].slot - log[j].slot >= Spread(log, j, k)
    decreases k
  {
    hide SlotFor;
    if j < k {
      assert log[k].slot == SlotFor(log[k].now, NextAt(log, k));
      SlotIsLater(log[k].now, NextAt(log, k));
      SlotsAreApart(log, j, k - 1);
    }
  }

  /** A caller's slot is exactly as late as it has to be: the latest of what the callers up
      to it require, the clock starting at zero. */
  lemma {:induction false} SlotIsLatestDemand(log: seq<Reservation>, k: nat)
    requires Chained(log) && k < |log|
    ensures log[k].slot >= Spread(log, 0, k)
    ensures forall j :: 0 <= j <= k ==> log[k].slot >= log[j].now + Spread(log, j, k)
    ensures log[k].slot == Spread(log, 0, k) || exists j :: 0 <= j <= k && log[k].slot == log[j].now + Spread(log, j, k)
    decreases k
  {
    assert log[k].slot == SlotFor(log[k].now, NextAt(log, k));
    if k > 0 {
      SlotIsLatestDemand(log, k - 1);
      forall j | 0 <= j < k ensures Spread(log, j, k) == Spread(log, j, k - 1) + log[k - 1].interval {}
      if log[k].slot == NextAt(log, k) && log[k - 1].slot != Spread(log, 0, k - 1) {
        var j :| 0 <= j <= k - 1 && log[k - 1].slot == log[j].now + Spread(log, j, k - 1);
        assert log[k].slot == log[j].now + Spread(log, j, k);
      }
    }
    assert Spread(log, k, k) == 0.0;
  }

  ghost predicate FixedInterval(log: seq<Reservation>, q: real) { forall k :: 0 <= k < |log| ==> log[k].interval == q }

  lemma {:induction false} FixedSpread(log: seq<Reservation>, q: real, j: nat, k: nat)
    requires FixedInterval(log, q) && j <= k <= |log|
    ensures Spread(log, j, k) == (k - j) as real * q
    decreases k
  {
    if j < k { FixedSpread(log, q, j, k - 1); }
  }

  /** At a fixed interval, from a clock that starts at or above zero: slot k is the greatest
      of now_j + (k - j) * q over the reservations up to k. */
  lemma SlotIsMaximum(log: seq<Reservation>, q: real, k: nat)
    requires Chained(log) && FixedInterval(log, q) && k < |log| && log[0].now >= 0.0
    ensures forall j :: 0 <= j <= k ==> log[k].slot >= log[j].now + (k - j) as real * q
    ensures exists j :: 0 <= j <= k && log[k].slot == log[j].now + (k - j) as real * q
  {
    SlotIsLatestDemand(log, k);
    hide Chained;
    forall j | 0 <= j <= k ensures Spread(log, j, k) == (k - j) as real * q { FixedSpread(log, q, j, k); }
    if log[k].slot == Spread(log, 0, k) {
      assert log[k].slot >= log[0].now + Spread(log, 0, k);
      assert log[k].slot == log[0].now + (k - 0) as real * q;
    } else {
      var j :| 0 <= j <= k && log[k].slot == log[j].now + Spread(log, j, k);
      assert log[k].slot == log[j].now + (k - j) as real * q;
    }
  }

  lemma Spaced(log: seq<Reservation>, q: real, start: real, length: real, j: nat, k: nat)
    requires Chained(log) && FixedInterval(log, q) && j <= k < |log|
    requires start <= log[j].slot && log[k].slot <= start + length
    ensures (k - j) as real * q <= length
  {
    SlotsAreApart(log, j, k);
    FixedSpread(log, q, j, k);
  }

  /** The reservations whose slots fall in a period. */
  function InPeriod(log: seq<Reservation>, start: real, length: real): set<nat> {
    set k: nat | k < |log| && start <= log[k].slot <= start + length
  }

  lemma EndsOfPeriod(log: seq<Reservation>, start: real, length: real) returns (j: nat, k: nat)
    requires InPeriod(log, start, length) != {}
    ensures j <= k < |log| && start <= log[j].slot && log[k].slot <= start + length
    ensures |InPeriod(log, start, length)| <= k - j + 1
  {
    j, k := Ends(InPeriod(log, start, length));
    Within(InPeriod(log, start, length), j, k);
  }

  /** At a fixed interval q > 0 any period of length L holds at most L / q + 1 slots. */
  lemma SlotsInAPeriod(log: seq<Reservation>, q: real, start: real, length: real)
    requires Chained(log) && FixedInterval(log, q) && q > 0.0 && length >= 0.0
    ensures |set k: nat | k < |log| && start <= log[k].slot <= start + length| <= (length / q).Floor + 1
  {
    FewInPeriod(log, q, start, length);
    hide FixedInterval, Chained;
    assert InPeriod(log, start, length) == set k: nat | k < |log| && start <= log[k].slot <= start + length;
  }

  lemma FewInPeriod(log: seq<Reservation>, q: real, start: real, length: real)
    requires Chained(log) && FixedInterval(log, q) && q > 0.0 && length >= 0.0
    ensures |InPeriod(log, start, length)| <= (length / q).Floor + 1
  {
    hide InPeriod, FixedInterval, Chained;
    if InPeriod(log, start, length) == {} {
      Quotient(0, q, length);
    } else {
      var j, k := EndsOfPeriod(log, start, length);
      Spaced(log, q, start, length, j, k);
      Quotient(k - j, q, length);
    }
  }

  lemma Quotient(n: int, q: real, length: real)
    requires q > 0.0 && n as real * q <= length
    ensures n <= (length / q).Floor
  {
    assert n as real <= length / q;
  }

  /** The first and the last of them. */
  lemma {:induction false} Ends(s: set<nat>) returns (j: nat, k: nat)
    requires s != {}
    ensures j in s && k in s && forall x :: x in s ==> j <= x <= k
  {
    var x :| x in s;
    var rest := s - {x};
    if rest == {} {
      j, k := x, x;
    } else {
      j, k := Ends(rest);
      if x < j { j := x; }
      if x > k { k := x; }
    }
    forall y | y in s ensures j <= y <= k { assert y == x || y in rest; }
  }

  lemma {:induction false} Within(s: set<nat>, j: nat, k: nat)
    requires forall x :: x in s ==> j <= x <= k
    ensures |s| <= (if k < j then 0 else k - j + 1)
    decreases k + 1 - j
  {
    if k < j {
      assert s == {} by { if x :| x in s {} }
    } else {
      var rest := s - {j};
      Within(rest, j + 1, k);
      assert s <= rest + {j};
    }
  }

  /** The first caller does not wait, exactly when its clock does not read below zero, where
      the first free slot starts. */
  lemma FirstCallNeverWaits(log: seq<Reservation>)
    requires Chained(log) && log != []
    ensures log[0].slot == log[0].now <==> log[0].now >= 0.0
  {
    assert NextAt(log, 0) == 0.0;
  }

  // ----- When the callers themselves are spaced

  /** A caller let through at its own slot is followed by every later one no sooner than the
      intervals between their reservations, whenever and however they come through. */
  lemma PunctualCallersAreSpaced(states: seq<Limiter>, steps: seq<Step>, i: nat, x: nat, y: nat)
    requires Interleaving(states, steps) && Initial(states[0]) && i < |states|
    requires HasPassed(states[i], x) && HasPassed(states[i], y)
    requires var s := states[i]; s.callers[x].ticket < s.callers[y].ticket && s.callers[x].at == s.callers[x].slot
    ensures var s := states[i];
            && s.callers[y].ticket < |s.log|
            && s.callers[y].at >= s.callers[x].at + Spread(s.log, s.callers[x].ticket, s.callers[y].ticket)
  {
    NobodyPassesEarly(states, steps, i);
    hide Chained, InOrder, Interleaving;
    var s := states[i];
    assert Own(s.log, x, s.callers[x]) && Own(s.log, y, s.callers[y]);
    SlotsAreApart(s.log, s.callers[x].ticket, s.callers[y].ticket);
  }

  /** From here on the caller of the reservation after `x`'s can come through less than the
      interval behind `x`. */
  ghost predicate CanBunch(s: Limiter, x: nat) {
    exists states, steps :: Bunches(s, x, states, steps)
  }

  ghost predicate Bunches(s: Limiter, x: nat, states: seq<Limiter>, steps: seq<Step>) {
    && Interleaving(states, steps) && states[0] == s && HasPassed(s, x)
    && exists y :: OnTheHeels(s, x, states[|steps|], y)
  }

  ghost predicate OnTheHeels(s: Limiter, x: nat, t: Limiter, y: nat)
    requires HasPassed(s, x)
  {
    var k := s.callers[x].ticket;
    && k < |s.log| && HasPassed(t, y) && t.callers[y].ticket == k + 1
    && t.callers[y].at < s.callers[x].at + s.log[k].interval
  }

  /** `x` has just come through, on an enabled limiter that gave it an interval. */
  ghost predicate JustPassed(s: Limiter, x: nat) {
    && HasPassed(s, x) && s.callers[x].at == s.clock && s.min > 0.0
    && s.callers[x].ticket < |s.log| && s.log[s.callers[x].ticket].interval > 0.0
  }

  /** Callers can bunch exactly behind one that comes through later than its slot. */
  lemma BunchingFollowsLateness(states: seq<Limiter>, steps: seq<Step>, i: nat, x: nat)
    requires Interleaving(states, steps) && Initial(states[0]) && i < |states| && JustPassed(states[i], x)
    ensures CanBunch(states[i], x) <==> states[i].callers[x].at > states[i].callers[x].slot
  {
    InitialInv(states[0]);
    InterleavingKeepsInv(states, steps, i);
    hide Inv, Interleaving, Bunches;
    var s := states[i];
    PassedOk(s, x);
    if CanBunch(s, x) {
      var more, after :| Bunches(s, x, more, after);
      BunchedBehindLate(s, x, more, after);
    } else if s.callers[x].at > s.callers[x].slot {
      LateLeavesRoom(s, x);
    }
  }

  lemma PassedOk(s: Limiter, x: nat)
    requires Inv(s) && HasPassed(s, x)
    ensures var c := s.callers[x]; c.ticket < |s.log| && s.log[c.ticket].slot == c.slot <= c.at <= s.clock
  {
    hide Chained, InOrder, Held;
    assert CallerOk(s, x, s.callers[x]);
  }

  lemma HolderOk(s: Limiter)
    requires Inv(s) && s.lock.Some?
    ensures s.lock.value in s.callers && s.callers[s.lock.value].Holding? && s.callers[s.lock.value].now <= s.clock
  {
    hide Chained, InOrder, Held;
    assert CallerOk(s, s.lock.value, s.callers[s.lock.value]);
  }

  lemma BunchedBehindLate(s: Limiter, x: nat, states: seq<Limiter>, steps: seq<Step>)
    requires Inv(s) && JustPassed(s, x) && Bunches(s, x, states, steps)
    ensures s.callers[x].at > s.callers[x].slot
  {
    hide Bunches, Inv;
    var t, y := BunchedCaller(s, x, states, steps);
    PassedOk(t, y);
    PassedOk(s, x);
    var k := s.callers[x].ticket;
    NextSlotIsLater(t, k + 1);
    assert t.log[k] == s.log[k];
  }

  lemma BunchedCaller(s: Limiter, x: nat, states: seq<Limiter>, steps: seq<Step>) returns (t: Limiter, y: nat)
    requires Inv(s) && Bunches(s, x, states, steps)
    ensures Inv(t) && s.log <= t.log && HasPassed(s, x) && OnTheHeels(s, x, t, y)
  {
    hide Inv, OnTheHeels;
    InterleavingKeepsInv(states, steps, |steps|);
    hide Interleaving;
    t := states[|steps|];
    y :| OnTheHeels(s, x, t, y);
  }

  lemma NextSlotIsLater(t: Limiter, k: nat)
    requires Inv(t) && 0 < k < |t.log|
    ensures t.log[k].slot >= t.log[k - 1].slot + t.log[k - 1].interval
  {
    hide SlotFor, InOrder, CallerOk, Held;
    SlotIsLater(t.log[k].now, NextAt(t.log, k));
  }

  lemma FreshId(callers: map<nat, Caller>) returns (id: nat)
    ensures id !in callers
  {
    id := 0;
    if callers.Keys != {} {
      var low, high := Ends(callers.Keys);
      id := high + 1;
    }
  }

  /** Behind a late caller: the next slot, taken already or about to be, starts before the
      late caller's time is an interval old, and its caller waits no longer than that. */
  lemma LateLeavesRoom(s: Limiter, x: nat)
    requires Inv(s) && JustPassed(s, x) && s.callers[x].at > s.callers[x].slot
    ensures CanBunch(s, x)
  {
    hide Inv, CanBunch;
    PassedOk(s, x);
    var k := s.callers[x].ticket;
    if k + 1 < |s.log| {
      var y := TakenSlot(s, k);
      ComesThrough(s, x, y, [s], []);
    } else {
      NextIsLast(s);
      var states, steps, y := SomebodyEnters(s);
      hide Interleaving;
      states, steps := Extended(states, steps, Reserve(y));
      ComesThrough(s, x, y, states, steps);
    }
  }

  lemma TakenSlot(s: Limiter, k: nat) returns (y: nat)
    requires Inv(s) && k + 1 < |s.log|
    ensures y in s.callers && s.callers[y].Ticketed() && s.callers[y].ticket == k + 1
    ensures s.callers[y].slot <= Max(s.clock, s.log[k].slot + s.log[k].interval)
    ensures s.callers[y].Passed? ==> s.callers[y].at <= s.clock
  {
    y := s.log[k + 1].caller;
    assert Held(s, k + 1);
    assert CallerOk(s, y, s.callers[y]);
    assert NextAt(s.log, k + 1) == s.log[k].slot + s.log[k].interval;
  }

  lemma NextIsLast(s: Limiter)
    requires Inv(s) && s.log != []
    ensures s.next == s.log[|s.log| - 1].slot + s.log[|s.log| - 1].interval
  {
    hide Chained, InOrder, Held, CallerOk;
  }

  lemma SomebodyEnters(s: Limiter) returns (states: seq<Limiter>, steps: seq<Step>, y: nat)
    requires Inv(s) && s.min > 0.0
    ensures Interleaving(states, steps) && states[0] == s
    ensures var u := states[|steps|];
            && u.clock == s.clock && u.log == s.log && u.next == s.next
            && y in u.callers && u.callers[y].Holding? && u.callers[y].now <= s.clock
  {
    states, steps := [s], [];
    if s.lock.Some? {
      HolderOk(s);
      y := s.lock.value;
    } else {
      y := FreshId(s.callers);
      hide Inv;
      states, steps := Extended(states, steps, Call(y));
      states, steps := Extended(states, steps, Enter(y));
    }
  }

  /** The caller of the slot after `x`'s comes through, after a wait if it has one. */
  lemma ComesThrough(s: Limiter, x: nat, y: nat, states: seq<Limiter>, steps: seq<Step>)
    requires JustPassed(s, x) && Interleaving(states, steps) && states[0] == s
    requires var u, k := states[|steps|], s.callers[x].ticket;
             && u.clock == s.clock && y in u.callers && u.callers[y].Ticketed() && u.callers[y].ticket == k + 1
             && u.callers[y].slot < s.callers[x].at + s.log[k].interval
             && (u.callers[y].Passed? ==> u.callers[y].at <= u.clock)
    ensures CanBunch(s, x)
  {
    var a, b := states, steps;
    var slot := a[|b|].callers[y].slot;
    if slot > s.clock { a, b := Extended(a, b, Tick(slot - s.clock)); }
    if a[|b|].callers[y].Reserved? {
      a, b := Extended(a, b, Check(y));
    } else if a[|b|].callers[y].Asleep? {
      a, b := Extended(a, b, Wake(y));
    }
    assert OnTheHeels(s, x, a[|b|], y);
    hide Interleaving, OnTheHeels;
    assert Bunches(s, x, a, b);
  }

  /** It happens: a caller that looks at the clock again only after its slot has gone comes
      through with the next one on its heels, at the same instant. */
  lemma CallersMayBunch(q: real) returns (states: seq<Limiter>, steps: seq<Step>)
    requires q > 0.0
    ensures Interleaving(states, steps) && Initial(states[0]) && states[0].min == q
    ensures var s := states[|steps|];
            0 in s.callers && 1 in s.callers && s.callers[0] == Passed(0.0, 0, q) && s.callers[1] == Passed(q, 1, q)
  {
    states, steps := [Limiter(0.0, q, 0.0, None, map[], [])], [];
    states, steps := Extended(states, steps, Call(0));
    states, steps := Extended(states, steps, Enter(0));
    states, steps := Extended(states, steps, Reserve(0));
    states, steps := Extended(states, steps, Tick(q));
    states, steps := Extended(states, steps, Check(0));
    states, steps := Extended(states, steps, Call(1));
    states, steps := Extended(states, steps, Enter(1));
    states, steps := Extended(states, steps, Reserve(1));
    states, steps := Extended(states, steps, Check(1));
  }

  lemma Extended(states: seq<Limiter>, steps: seq<Step>, step: Step) returns (longer: seq<Limiter>, more: seq<Step>)
    requires Interleaving(states, steps) && Enabled(states[|steps|], step)
    ensures Interleaving(longer, more) && longer[0] == states[0] && |more| == |steps| + 1
    ensures longer[|more|] == After(states[|steps|], step)
  {
    longer, more := states + [After(states[|steps|], step)], steps + [step];
  }

  /** With no interval in force a caller is neither queued nor made to wait, and otherwise
      it is. */
  lemma OnlyAnIntervalLimits(s: Limiter, id: nat)
    requires Inv(s) && id !in s.callers
    ensures var t := After(s, Call(id));
            && id in t.callers && t.lock == s.lock && t.log == s.log && t.next == s.next
            && (s.min == 0.0 ==> t.callers[id] == Unlimited) && (s.min > 0.0 ==> t.callers[id] == Calling)
  {
  }

  // ----- Nobody waits for ever

  /** From `s` on, `t` is where some continuation ends. */
  ghost predicate ComesTo(s: Limiter, t: Limiter, states: seq<Limiter>, steps: seq<Step>) {
    Interleaving(states, steps) && states[0] == s && states[|steps|] == t
  }

  /** A caller with a reservation comes through on its slot, or at once if that has gone. */
  lemma ReservedComesThrough(s: Limiter, now: Limiter, states: seq<Limiter>, steps: seq<Step>, id: nat)
    returns (t: Limiter, longer: seq<Limiter>, more: seq<Step>)
    requires ComesTo(s, now, states, steps) && id in now.callers && (now.callers[id].Reserved? || now.callers[id].Asleep?)
    ensures ComesTo(s, t, longer, more) && id in t.callers
    ensures var c := now.callers[id]; t.callers[id] == Passed(c.slot, c.ticket, Max(c.slot, now.clock))
  {
    var c := now.callers[id];
    longer, more := Extended(states, steps, Tick(Max(0.0, c.slot - now.clock)));
    longer, more := Extended(longer, more, if c.Reserved? then Check(id) else Wake(id));
    t := longer[|more|];
  }

  /** Whoever called can come through with no more delay than its slot asks: after the one
      in the lock has made its reservation, at the slot it then gets. */
  lemma EveryCallerComesThrough(s: Limiter, id: nat) returns (t: Limiter, states: seq<Limiter>, steps: seq<Step>)
    requires Inv(s) && id in s.callers && !s.callers[id].Unlimited? && !s.callers[id].Passed?
    ensures ComesTo(s, t, states, steps)
    ensures id in t.callers && t.callers[id].Passed? && t.callers[id].at == Max(t.callers[id].slot, s.clock)
    ensures s.callers[id].Ticketed() ==> t.callers[id].slot == s.callers[id].slot && t.callers[id].ticket == s.callers[id].ticket
  {
    states, steps := [s], [];
    if s.callers[id].Calling? {
      if s.lock.Some? { states, steps := Extended(states, steps, Reserve(s.lock.value)); }
      states, steps := Extended(states, steps, Enter(id));
    }
    if states[|steps|].callers[id].Holding? { states, steps := Extended(states, steps, Reserve(id)); }
    t, states, steps := ReservedComesThrough(s, states[|steps|], states, steps, id);
  }
}
