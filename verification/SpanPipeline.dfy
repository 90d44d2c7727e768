/** The span engine end to end: build, overlay, party merge, clip. */
module SpanPipeline {
  import opened Ordering
  import opened Terms
  import opened Tenure
  import opened TenureBuilder
  import opened PartyContinuity
  import opened OperatorOverlay
  import opened OverlayLaws
  import opened SeatClipping
  import opened SeatClippingNarrows

  /** A published span: sound, and each edge known to lie inside it. */
  ghost predicate Publishable(s: TenureSpan) {
    && s.Sound()
    && (s.isActive <==> s.validTo.None?) && (s.validTo.None? <==> s.endBasis == Open)
    && s.validFrom <= s.ValidFromLatest() <= s.EndOrOpen()
    && (s.validTo.Some? ==> s.ValidToEarliest().Some? && s.validFrom <= s.ValidToEarliest().value <= s.validTo.value)
  }

  /** One of the sources has the span. */
  ghost predicate Among(sources: seq<seq<TenureSpan>>, s: TenureSpan) {
    exists n :: 0 <= n < |sources| && s in sources[n]
  }

  /** From any observations, through any operator events, every source's spans come out of
      the clip publishable, however many sources share the seats. */
  lemma PipelineIsSound(sources: seq<seq<TenureSpan>>, spans: seq<TenureSpan>, capacity: Capacity, k: nat)
    requires forall i :: 0 <= i < |spans| ==> Among(sources, spans[i])
    requires forall n :: 0 <= n < |sources| ==> IsOverlaid(sources[n])
    requires k < |spans|
    ensures k < |Clipped(spans, capacity).spans| && Publishable(Clipped(spans, capacity).spans[k])
  {
    hide TenureSpan.Sound, Clipped, AllValid, ClippedFrom, IsOverlaid;
    forall i | 0 <= i < |spans| ensures spans[i].Sound() {
      assert Among(sources, spans[i]);
      var n :| 0 <= n < |sources| && spans[i] in sources[n];
      OverlaidIsSound(sources[n]);
    }
    ClipKeepsSound(spans, capacity);
    SameCount(spans, capacity);
    EdgeIntervals(Clipped(spans, capacity).spans[k]);
    ActiveMeansOpen(Clipped(spans, capacity).spans[k]);
  }

  /** What the overlay makes of what the builder made of some observations. */
  ghost predicate IsOverlaid(out: seq<TenureSpan>) {
    exists obs, current, built, events, g ::
      MaximalRuns(obs, current, built) && EventsOk(events) && Plain(Overlaid(built, events, g).spans) && out == Merged(Overlaid(built, events, g).spans)
  }

  lemma OverlaidIsSound(out: seq<TenureSpan>)
    requires IsOverlaid(out)
    ensures forall s :: s in out ==> s.Sound()
  {
    hide Overlaid, Merged, MaximalRuns, TenureSpan.Sound;
    var obs, current, built, events, g :|
      MaximalRuns(obs, current, built) && EventsOk(events) && Plain(Overlaid(built, events, g).spans) && out == Merged(Overlaid(built, events, g).spans);
    assert Plain(out);
  }

  /** The overlay accepts what the builder emits. */
  lemma BuiltThenOverlaid(obs: seq<Observation>, current: Biennium, built: seq<TenureSpan>, events: seq<SuccessionEvent>, g: Setting)
    requires MaximalRuns(obs, current, built) && EventsOk(events)
    ensures Plain(built) && Plain(Overlaid(built, events, g).spans)
    ensures IsOverlaid(Merged(Overlaid(built, events, g).spans))
  {
    hide MaximalRuns, Overlaid, Merged, TenureSpan.Sound;
    BuiltSpansAreSound(obs, current, built);
    assert Plain(built) by { forall i | 0 <= i < |built| ensures PlainSpan(built[i]) { assert built[i] in built; } }
    OverlaidPlain(built, events, g);
  }

  lemma SameCount(spans: seq<TenureSpan>, capacity: Capacity)
    requires forall i :: 0 <= i < |spans| ==> spans[i].Sound()
    ensures |Clipped(spans, capacity).spans| == |spans|
  {
    hide Clipped;
    ClipOnlyNarrows(spans, capacity);
  }

  lemma ActiveMeansOpen(s: TenureSpan)
    requires s.Sound()
    ensures (s.isActive <==> s.validTo.None?) && (s.validTo.None? <==> s.endBasis == Open)
  {
  }
}
