/** The dates of built tenures, told from the observations. */
module BuiltTenures {
  import opened Ordering
  import opened Terms
  import opened Tenure
  import opened TenureBuilder

  /** A tenure's days are those of its bienniums, first to last, and after them if it is
      still running. */
  lemma TenureHoldsItsBienniums(obs: seq<Observation>, current: Biennium, spans: seq<TenureSpan>, s: TenureSpan, x: Date)
    requires MaximalRuns(obs, current, spans) && s in spans
    ensures s.Covers(x) <==> s.startBiennium <= BienniumOf(x) && (BienniumOf(x) <= s.endBiennium || s.endBiennium == current)
  {
    hide BienniumOf, Run, SortedBy;
    BienniumAtLeast(x, s.startBiennium);
    BienniumAtMost(x, s.endBiennium);
    assert IsRunSpan(obs, current, s);
    hide BienniumStart, BienniumEnd;
  }

  /** Which tenure is running, and that nothing about a built tenure is more than observed. */
  lemma RunningExactlyNow(obs: seq<Observation>, current: Biennium, spans: seq<TenureSpan>, s: TenureSpan)
    requires MaximalRuns(obs, current, spans) && s in spans
    ensures s.validTo.None? <==> s.endBiennium == current
    ensures s.isActive <==> s.endBiennium == current
    ensures s.startBasis == Tenure.Observed && s.endBasis == if s.endBiennium == current then Open else Tenure.Observed
    ensures s.membership == Principal && s.Windowless()
  {
    assert IsRunSpan(obs, current, s);
    hide Run, SortedBy, BienniumEnd, BienniumStart;
  }

  /** The key is held in the current biennium, and nothing carries that tenure past it. */
  ghost predicate Sitting(obs: seq<Observation>, current: Biennium, key: Key) {
    TenureBuilder.Observed(obs, key, current) && (TenureBuilder.Observed(obs, key, current + 2) ==> Breaks(obs, key, current + 2))
  }

  ghost predicate CoveredOn(spans: seq<TenureSpan>, key: Key, x: Date) {
    exists i :: 0 <= i < |spans| && SpanKey(spans[i]) == key && spans[i].Covers(x)
  }

  /** A day is in some tenure of the key exactly when the key was observed in the day's
      biennium, or the day lies past the current biennium and the key is sitting in it. */
  lemma HeldExactlyWhenObserved(obs: seq<Observation>, current: Biennium, spans: seq<TenureSpan>, key: Key, x: Date)
    requires MaximalRuns(obs, current, spans)
    ensures CoveredOn(spans, key, x)
       <==> TenureBuilder.Observed(obs, key, BienniumOf(x)) || (BienniumOf(x) > current && Sitting(obs, current, key))
  {
    hide BienniumOf, MaximalRuns, TenureBuilder.Observed, Breaks, TenureSpan.Covers;
    var b := BienniumOf(x);
    ExpansionIsExact(obs, current, spans, key, b);
    SittingIsOpen(obs, current, spans, key);
    forall i | 0 <= i < |spans| ensures spans[i] in spans {}
    if CoveredOn(spans, key, x) {
      var i :| 0 <= i < |spans| && SpanKey(spans[i]) == key && spans[i].Covers(x);
      TenureHoldsItsBienniums(obs, current, spans, spans[i], x);
      if b <= spans[i].endBiennium { assert CoveredBy(spans[i], key, b); }
    }
    if TenureBuilder.Observed(obs, key, b) {
      var i :| 0 <= i < |spans| && CoveredBy(spans[i], key, b);
      TenureHoldsItsBienniums(obs, current, spans, spans[i], x);
    }
    if b > current && Sitting(obs, current, key) {
      var i :| 0 <= i < |spans| && SpanKey(spans[i]) == key && spans[i].endBiennium == current;
      RunOrdered(obs, current, spans, spans[i]);
      TenureHoldsItsBienniums(obs, current, spans, spans[i], x);
    }
  }

  lemma RunOrdered(obs: seq<Observation>, current: Biennium, spans: seq<TenureSpan>, s: TenureSpan)
    requires MaximalRuns(obs, current, spans) && s in spans
    ensures s.startBiennium <= s.endBiennium
  {
    assert IsRunSpan(obs, current, s);
  }

  /** A tenure of the key is running exactly when the key is sitting. */
  lemma SittingIsOpen(obs: seq<Observation>, current: Biennium, spans: seq<TenureSpan>, key: Key)
    requires MaximalRuns(obs, current, spans)
    ensures Sitting(obs, current, key) <==> exists i :: 0 <= i < |spans| && SpanKey(spans[i]) == key && spans[i].endBiennium == current
  {
    hide TenureBuilder.Observed, Breaks, SortedBy;
    ExpansionIsExact(obs, current, spans, key, current);
    forall i | 0 <= i < |spans| ensures spans[i] in spans {}
    if Sitting(obs, current, key) {
      var i :| 0 <= i < |spans| && CoveredBy(spans[i], key, current);
      SittingEndsNow(obs, current, spans[i], key);
    }
    if i :| 0 <= i < |spans| && SpanKey(spans[i]) == key && spans[i].endBiennium == current {
      OpenIsSitting(obs, current, spans[i], key);
    }
  }

  lemma SittingEndsNow(obs: seq<Observation>, current: Biennium, s: TenureSpan, key: Key)
    requires IsRunSpan(obs, current, s) && CoveredBy(s, key, current) && Sitting(obs, current, key)
    ensures s.endBiennium == current
  {
    if s.endBiennium > current { CarriesOn(obs, key, s.startBiennium, s.endBiennium, current); }
    hide TenureBuilder.Observed, SpanOf;
  }

  lemma CarriesOn(obs: seq<Observation>, key: Key, first: Biennium, last: Biennium, b: Biennium)
    requires Run(obs, key, first, last) && first <= b < last
    ensures TenureBuilder.Observed(obs, key, b) && TenureBuilder.Observed(obs, key, b + 2) && !Breaks(obs, key, b + 2)
  {
    hide TenureBuilder.Observed, Breaks;
    var next: Biennium := b + 2;
    assert !Starts(obs, key, next);
    assert next - 2 == b;
  }

  lemma OpenIsSitting(obs: seq<Observation>, current: Biennium, s: TenureSpan, key: Key)
    requires IsRunSpan(obs, current, s) && SpanKey(s) == key && s.endBiennium == current
    ensures Sitting(obs, current, key)
  {
    hide Breaks, TenureBuilder.Observed, SpanOf;
    assert TenureBuilder.Observed(obs, key, current);
  }
}
