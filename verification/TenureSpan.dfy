/** One merged tenure: who held what, between which dates, and where each date
    came from. */
module Tenure {
  import opened Ordering
  import opened Terms

  const KIND_PARTY := "party"
  const KIND_SENATE := "chamber-senate"
  const KIND_HOUSE := "chamber-house"

  /** Where an edge's date came from. `Open` is an end basis only. */
  datatype Basis = Dated | Derived | Observed | Open

  datatype Membership = Principal | Substitute | ExOfficio | Acting

  datatype TenureSpan = TenureSpan(
    memberId: string,
    kind: string,
    discriminator: string,
    startBiennium: Biennium,
    endBiennium: Biennium,
    validFrom: Date,
    validTo: Option<Date>,
    isActive: bool,
    startBasis: Basis,
    endBasis: Basis,
    membership: Membership,
    startWindowEnd: Option<Date>,
    endWindowStart: Option<Date>)
  {
    /** What the constructor checks; it raises on anything else. */
    predicate Valid() {
      && startBasis != Open
      && (endBasis == Open <==> validTo.None?)
      && (startWindowEnd.Some? ==>
            && startBasis == Dated
            && validFrom <= startWindowEnd.value <= EndOrOpen())
      && (endWindowStart.Some? ==>
            && endBasis == Dated && validTo.Some?
            && validFrom <= endWindowStart.value <= validTo.value)
    }

    /** `valid_to or _OPEN` */
    function EndOrOpen(): int {
      if validTo.Some? then validTo.value else OPEN
    }

    function ValidFromLatest(): Date {
      if startBasis == Dated then
        if startWindowEnd.Some? then startWindowEnd.value else validFrom
      else
        var ceiling := BienniumEnd(startBiennium);
        var bound := if validTo.Some? && validTo.value < ceiling then validTo.value else ceiling;
        if validFrom < bound then bound else validFrom
    }

    function ValidToEarliest(): Option<Date> {
      if validTo.None? then None
      else if endBasis == Dated then
        if endWindowStart.Some? then endWindowStart else validTo
      else
        var first := BienniumStart(endBiennium);
        var floor := if first < validFrom then validFrom else first;
        Some(if validTo.value < floor then validTo.value else floor)
    }

    /** The parts `source_id` is printed from. */
    function SourceKey(): (string, string, string, Biennium) {
      (memberId, kind, discriminator, startBiennium)
    }

    /** `source_id`: stable while a span extends, new for a tenure that starts anew. */
    function SourceId(): string {
      memberId + ":" + kind + ":" + discriminator + ":" + Label(startBiennium)
    }

    function Seat(): (string, string) { (kind, discriminator) }

    /** The day falls in the tenure, an open end being unbounded (`_span_covers`). */
    predicate Covers(d: Date) {
      validFrom <= d <= EndOrOpen()
    }

    predicate Windowless() { startWindowEnd.None? && endWindowStart.None? }

    /** What every stage of the pipeline owes the next: the constructor accepts the
        span, it does not end before it starts, "active" is "has no end", and it starts
        in the biennium it is keyed on or in the one just before. */
    predicate Sound() {
      && Valid()
      && validFrom <= EndOrOpen()
      && (isActive <==> validTo.None?)
      && startBiennium - 2 <= BienniumOf(validFrom) <= startBiennium
    }
  }

  /** The interval each edge is known to lie in is non-empty and inside the span. */
  lemma EdgeIntervals(s: TenureSpan)
    requires s.Sound()
    ensures s.validFrom <= s.ValidFromLatest() <= s.EndOrOpen()
    ensures s.validTo.None? <==> s.ValidToEarliest().None?
    ensures s.validTo.Some? ==> s.validFrom <= s.ValidToEarliest().value <= s.validTo.value
    ensures s.isActive <==> s.endBasis == Open
  {
  }

  /** What the constructor accepts: an end is open exactly when there is none, a start never
      is; and a window stands at a stated edge, its other side a day of the tenure. */
  lemma ConstructorAccepts(s: TenureSpan)
    ensures s.Valid() <==>
              && s.startBasis in {Dated, Derived, Observed}
              && (s.validTo.None? <==> s.endBasis == Open)
              && (s.startWindowEnd.Some? ==> s.startBasis == Dated && s.Covers(s.startWindowEnd.value))
              && (s.endWindowStart.Some? ==> s.endBasis == Dated && s.Covers(s.endWindowStart.value))
  {
  }

  /** And what every stage owes the next besides. */
  lemma SoundMeans(s: TenureSpan)
    ensures s.Sound() <==>
              && s.Valid() && s.Covers(s.validFrom) && (s.validTo.Some? ==> !s.isActive) && (s.validTo.None? ==> s.isActive)
              && BienniumOf(s.validFrom) in {s.startBiennium, s.startBiennium - 2}
  {
    OddYearApart(YearOf(s.validFrom), s.startBiennium);
    hide YearOf;
  }

  lemma OddYearApart(y: nat, b: Biennium)
    requires 1 <= y <= LAST_YEAR
    ensures OddYear(y) != b - 1
  {
  }

  /** How far each edge can lie: a stated one to the far side of its window; an observed one
      to the end of the tenure or of the biennium it was observed in, whichever is nearer. */
  lemma EdgesReach(s: TenureSpan, x: Date)
    requires s.Sound()
    ensures s.startBasis == Dated ==> s.ValidFromLatest() == if s.startWindowEnd.Some? then s.startWindowEnd.value else s.validFrom
    ensures s.startBasis != Dated && s.validFrom < x ==>
              (x <= s.ValidFromLatest() <==> s.Covers(x) && BienniumOf(x) <= s.startBiennium)
    ensures s.endBasis == Dated ==> s.ValidToEarliest() == if s.endWindowStart.Some? then s.endWindowStart else s.validTo
    ensures s.endBasis != Dated && s.validTo.Some? && x < s.validTo.value ==>
              (s.ValidToEarliest().value <= x <==> s.Covers(x) && s.endBiennium <= BienniumOf(x))
  {
    BienniumAtMost(x, s.startBiennium);
    BienniumAtLeast(x, s.endBiennium);
    hide BienniumOf, BienniumStart, BienniumEnd;
  }

  const COLON: char := ':'

  lemma CutAtFirstColon(a: string, b: string, c: string, d: string)
    requires COLON !in a && COLON !in c && a + [COLON] + b == c + [COLON] + d
    ensures a == c && b == d
  {
    var x, y := a + [COLON] + b, c + [COLON] + d;
    assert x[|a|] == COLON && y[|c|] == COLON;
    assert |a| == |c|;
    assert a == x[..|a|] && c == y[..|c|] && b == x[|a| + 1..] && d == y[|c| + 1..];
  }

  lemma CutAtLastColon(a: string, b: string, c: string, d: string)
    requires COLON !in b && COLON !in d && a + [COLON] + b == c + [COLON] + d
    ensures a == c && b == d
  {
    var x, y := a + [COLON] + b, c + [COLON] + d;
    assert x[|a|] == COLON && y[|c|] == COLON;
    assert |a| == |c|;
    assert a == x[..|a|] && c == y[..|c|] && b == x[|a| + 1..] && d == y[|c| + 1..];
  }

  lemma LabelHasNoColon(b: Biennium)
    ensures COLON !in Label(b)
  {
    NumberDecimal(b);
    TwoDigits((b + 1) % 100);
  }

  /** Four parts joined by colons fall apart again, if only the third may hold one. */
  lemma FourParts(m: string, k: string, d: string, l: string, m': string, k': string, d': string, l': string)
    requires COLON !in m && COLON !in m' && COLON !in k && COLON !in k' && COLON !in l && COLON !in l'
    requires m + [COLON] + (k + [COLON] + (d + [COLON] + l)) == m' + [COLON] + (k' + [COLON] + (d' + [COLON] + l'))
    ensures m == m' && k == k' && d == d' && l == l'
  {
    var x, x' := d + [COLON] + l, d' + [COLON] + l';
    var y, y' := k + [COLON] + x, k' + [COLON] + x';
    CutAtFirstColon(m, y, m', y');
    CutAtFirstColon(k, x, k', x');
    CutAtLastColon(d, l, d', l');
  }

  lemma SourceIdParts(s: TenureSpan)
    ensures s.SourceId() == s.memberId + [COLON] + (s.kind + [COLON] + (s.discriminator + [COLON] + Label(s.startBiennium)))
  {
    hide Label;
  }

  /** Where member ids and kinds hold no colon, as WSL's numbers and the kinds above do,
      two spans share a printed id exactly when they share its parts, whatever is in the
      discriminator. */
  lemma SourceIdTellsSpansApart(s: TenureSpan, t: TenureSpan)
    requires COLON !in s.memberId && COLON !in t.memberId && COLON !in s.kind && COLON !in t.kind
    ensures s.SourceId() == t.SourceId() <==> s.SourceKey() == t.SourceKey()
  {
    SourceIdParts(s);
    SourceIdParts(t);
    LabelHasNoColon(s.startBiennium);
    LabelHasNoColon(t.startBiennium);
    LabelRoundTrip(s.startBiennium);
    LabelRoundTrip(t.startBiennium);
    hide TenureSpan.SourceId, Label, ParseBiennium, BienniumStartYear;
    if s.SourceId() == t.SourceId() {
      FourParts(s.memberId, s.kind, s.discriminator, Label(s.startBiennium), t.memberId, t.kind, t.discriminator, Label(t.startBiennium));
    }
  }

  function Indices(n: nat): seq<nat> { seq(n, i => i) }

  /** Where in `work` the spans of one group stand, in input order. */
  function Positions(work: seq<TenureSpan>, group: TenureSpan -> bool): seq<nat> {
    Filter<nat>(Indices(|work|), (i: nat) => i < |work| && group(work[i]))
  }

  lemma PositionsAre(work: seq<TenureSpan>, group: TenureSpan -> bool, i: nat)
    ensures i in Positions(work, group) <==> i < |work| && group(work[i])
  {
    FilterMember<nat>(Indices(|work|), (i: nat) => i < |work| && group(work[i]), i);
    if i < |work| { assert Indices(|work|)[i] == i; }
  }
}
