# Verified models of the clearinghouse

A Dafny model of the parts of the clearinghouse that decide what is published, with proofs
of what they keep. Every `.dfy` file is one module; `dafny verify dfyconfig.toml` checks all
of them.

**The tenure-span engine.** Rosters say who held what in which biennium. The builder
(`TenureBuilder`) collapses those observations into maximal runs; the operator overlay
(`OperatorOverlay`) applies dated departures, vacancies and seatings, closing, re-dating,
minting and splitting spans in a list it sweeps while it grows; party spans are rejoined
across gaps (`PartyContinuity`); and the clip (`SeatClipping`) moves the edges the builder
could only quantize onto dates some source states, pair by pair, in place. Dates are day
ordinals over the Gregorian calendar and bienniums are odd start years (`Terms`); a span and
its invariants are in `TenureSpan`. Each loop is a method proved to compute a function of its
input, and the laws are proved of that function: of the builder in `TenureBuilder` and
`BuiltTenures`; of the party merge in `PartyContinuityLaws`, `PartyMergeLaws` and
`PartyGuard`; of the overlay in `SeatingLaws`, `OverlayLaws`, `OverlayDepartures`,
`OverlayReturns`, `OverlayMints`, `OverlayIds` and `OverlayIdInputs`; of the clip in
`SeatClippingNarrows`, `SeatClippingMoves`, `SeatClippingResidue`, `SeatClippingReasons`,
`SeatClippingSettles`, `SeatClippingSecondPass`, `SeatClippingIdempotent`,
`SeatClippingWindows` and `SeatClippingOrder`. `SpanPipeline` puts the stages together.

**The succession-cycle finder** (`CommitteeSuccession`): the iterative depth-first search
with its explicit stack, proved to terminate and to report a cycle exactly when there is one.

**The raw store** (`RawStore`, `RawConcurrency`, `RawProgress`): content-addressed objects, manifests, and
the newest-ok index that closing runs advance under a lock and a rebuild replays. The
concurrent model is a state machine over single reads, renames and lock operations, any of
which a process may crash between. **Its integrity sweep** (`RawIntegrity`, `RawCoverage`,
`RawSuccession`) re-hashes a budget's worth of objects a run, from a cursor kept per scope.

**The identity registry** (`Tombstones`, `Registry`, `RegistryLedger`, `RegistrarClusters`,
`RegistryHistory`, `RegistryVerbs`): tombstone resolution, the decision table and its application, the
registrar's union-find and its loop with a hand-kept view, and whole histories of
registrations, merges, unmerges and moves.

**The rate limiter** (`RateLimit`): slot reservation under a lock, for any number of callers,
any interleaving and any changes of interval.

`Ordering` holds what they share: optional values, Python's string and tuple order, stable
sort, filters.

Where the code and its own documentation disagree the model follows the code: the clip is not
idempotent (`SecondPassCanClip`) and can leave an overlap unreported
(`WindowLeavesSilentOverlap`), the overlay can give two spans one id
(`ReappointmentTakesHeldId`), the cycle finder does not list every simple cycle, labels of
years below 1000 do not read back (`LabelRoundTrip`), a negative byte budget makes a full
store look empty (`NothingToVerify`), an empty cluster is minted anew each time
(`ClusterIsSettled`), and the limiter spaces slots rather than callers (`CallersMayBunch`).

## Model

| member | source | states |
|---|---|---|
| `Terms.BienniumWindow` | packages/clearinghouse-domain-legislative/src/clearinghouse_domain_legislative/terms.py:44-66 | a date is in a biennium, by its year, exactly when it lies between that biennium's first and last day; so every date has exactly one biennium |
| `Terms.BienniumMonotone` | packages/clearinghouse-domain-legislative/src/clearinghouse_domain_legislative/terms.py:44-52 | a later date is never in an earlier biennium |
| `Terms.BienniumsAbut` | packages/clearinghouse-domain-legislative/src/clearinghouse_domain_legislative/terms.py:44-84 | one biennium ends the day before the next starts |
| `Terms.LabelRoundTrip` | packages/clearinghouse-domain-legislative/src/clearinghouse_domain_legislative/terms.py:26-57 | the printed label of a biennium parses back to its two years, across century rollovers, exactly when its start year has four digits; below that the parser refuses what the printer wrote; the start year alone always reads back |
| `Terms.LabelOrder` | packages/clearinghouse-domain-legislative/src/clearinghouse_domain_legislative/terms.py:44-52 | string order on four-digit labels is chronological order, which every sort on a label relies on |
| `Terms.RangeIsContiguous` | packages/clearinghouse-domain-legislative/src/clearinghouse_domain_legislative/terms.py:69-84 | the range holds exactly the bienniums between its ends, and stepping back one biennium undoes each of its steps |
| `Tenure.EdgeIntervals` | packages/clearinghouse-domain-legislative/src/clearinghouse_domain_legislative/tenure_spans.py:113-180 | for a sound span the earliest and latest dates each edge can have lie inside the span, in order, and open, active and endless are one thing |
| `Tenure.EdgesReach` | packages/clearinghouse-domain-legislative/src/clearinghouse_domain_legislative/tenure_spans.py:113-180 | how far each edge can lie: a stated one to the far side of its window; an observed start to the last day of the tenure inside the biennium it is keyed on, an observed end back to the first day inside its end biennium |
| `Tenure.ConstructorAccepts` | packages/clearinghouse-domain-legislative/src/clearinghouse_domain_legislative/tenure_spans.py:113-150 | the constructor accepts a span exactly when its end is open just if there is none, its start is not open, and each window stands at a stated edge with its other side a day of the tenure |
| `Tenure.SourceIdTellsSpansApart` | packages/clearinghouse-domain-legislative/src/clearinghouse_domain_legislative/tenure_spans.py:182-186 | two printed ids are equal exactly when member, kind, discriminator and start biennium are, if member ids and kinds hold no colon |
| `TenureBuilder.ConsecutiveRuns` | packages/clearinghouse-domain-legislative/src/clearinghouse_domain_legislative/tenure_spans.py:194-207 | the loop cuts an ascending list into runs that are consecutive, unbroken inside and not continued past their end, in order, losing nothing |
| `TenureBuilder.BuildTenureSpans` | packages/clearinghouse-domain-legislative/src/clearinghouse_domain_legislative/tenure_spans.py:210-247 | the spans returned are the maximal runs of what was observed, one for each biennium that starts a tenure, under distinct ids, in id order |
| `TenureBuilder.IdsAreStarts` | packages/clearinghouse-domain-legislative/src/clearinghouse_domain_legislative/tenure_spans.py:194-207 | a biennium heads a span exactly when it is observed and its predecessor is not, or it is flagged as opening a tenure |
| `TenureBuilder.ExpansionIsExact` | packages/clearinghouse-domain-legislative/src/clearinghouse_domain_legislative/tenure_spans.py:210-247 | the bienniums the spans cover are the bienniums observed, each covered by exactly one span of its key |
| `TenureBuilder.OneOpenPerKey` | packages/clearinghouse-domain-legislative/src/clearinghouse_domain_legislative/tenure_spans.py:210-247 | at most one span of a key is open |
| `BuiltTenures.TenureHoldsItsBienniums` | packages/clearinghouse-domain-legislative/src/clearinghouse_domain_legislative/tenure_spans.py:226-245 | a built tenure holds exactly the days of the bienniums from its first to its last, and every later day too if it reaches the current one |
| `BuiltTenures.RunningExactlyNow` | packages/clearinghouse-domain-legislative/src/clearinghouse_domain_legislative/tenure_spans.py:226-245 | a built tenure is open, and active, exactly when its end biennium is the current one; its edges are observed, its holder a principal, and it has no windows |
| `BuiltTenures.HeldExactlyWhenObserved` | packages/clearinghouse-domain-legislative/src/clearinghouse_domain_legislative/tenure_spans.py:210-247 | a day is in some tenure of a key exactly when the key was observed in the day's biennium, or the day lies past the current biennium and the key is held in it and not carried on past it |
| `TenureBuilder.OrderAndDuplicatesDoNotMatter` | packages/clearinghouse-domain-legislative/src/clearinghouse_domain_legislative/tenure_spans.py:210-247 | the build depends only on which observations there are, not on their order or on repeats |
| `TenureBuilder.LaterBienniumAddsAtMostOneId` | packages/clearinghouse-domain-legislative/src/clearinghouse_domain_legislative/tenure_spans.py:182-247 | observing a later biennium keeps every id and adds one exactly when that biennium starts a tenure |
| `TenureBuilder.BuiltSpansAreSound` | packages/clearinghouse-domain-legislative/src/clearinghouse_domain_legislative/tenure_spans.py:226-245 | every built span is one the constructor accepts, starts no later than it ends, and starts in the biennium it is keyed on |
| `PartyContinuity.Extend` | packages/clearinghouse-domain-legislative/src/clearinghouse_domain_legislative/tenure_spans.py:325-360 | widening a run keeps its start and id, takes end, end basis and end biennium together from the side that ends last, or on one day was attested last, or the later biennium where either end is open, and stays sound |
| `PartyContinuity.MergePartyContinuity` | packages/clearinghouse-domain-legislative/src/clearinghouse_domain_legislative/tenure_spans.py:250-322 | the loops over members and their date-ordered spans compute the merge proved about below |
| `PartyMergeLaws.EveryPartySpanIsJoined` | packages/clearinghouse-domain-legislative/src/clearinghouse_domain_legislative/tenure_spans.py:250-322 | each party span's window lies inside one output span of the same member and party |
| `PartyMergeLaws.MergedSpansAreMadeFromInputs` | packages/clearinghouse-domain-legislative/src/clearinghouse_domain_legislative/tenure_spans.py:277-284 | the start and id of every output span are one input span's, and its end is one input span's: no date is invented |
| `PartyMergeLaws.MergedSourcesAreDistinct` | packages/clearinghouse-domain-legislative/src/clearinghouse_domain_legislative/tenure_spans.py:277-284 | distinct ids in, distinct ids out |
| `PartyMergeLaws.MergedPartiesAlternate` | packages/clearinghouse-domain-legislative/src/clearinghouse_domain_legislative/tenure_spans.py:261-266 | a member's merged spans, in date order, alternate parties: neighbours are never of one party |
| `PartyGuard.MemberRunsAreCut` | packages/clearinghouse-domain-legislative/src/clearinghouse_domain_legislative/tenure_spans.py:261-284 | a member's runs are cut exactly where, in date order, a span of one party follows one of another: each run starts as the span after a cut does, takes in every span up to the next cut whole, and ends with one of them |
| `PartyGuard.OutputsAreTheRuns` | packages/clearinghouse-domain-legislative/src/clearinghouse_domain_legislative/tenure_spans.py:286-322 | the member's party spans that come out of the merge are those runs and no others, each as often |
| `PartyGuard.LastOutputJoins` | packages/clearinghouse-domain-legislative/src/clearinghouse_domain_legislative/tenure_spans.py:261-266 | for every party span, the member's last output in date order to start no later than it has its party and joins it, so no run reaches across a span of another party; under the same two conditions as the next two rows |
| `PartyMergeLaws.MergeIsIdempotent` | packages/clearinghouse-domain-legislative/src/clearinghouse_domain_legislative/tenure_spans.py:250-322 | merging twice is merging once, where no two parties tie on start and ids are distinct |
| `PartyMergeLaws.MergeOrderDoesNotMatter` | packages/clearinghouse-domain-legislative/src/clearinghouse_domain_legislative/tenure_spans.py:250-322 | the merge does not depend on input order, under the same two conditions |
| `PartyMergeLaws.MergeIsPerMember` | packages/clearinghouse-domain-legislative/src/clearinghouse_domain_legislative/tenure_spans.py:286-317 | what the merge makes of one member's spans among others is what it makes of them alone |
| `PartyMergeLaws.OtherKindsPassThrough` | packages/clearinghouse-domain-legislative/src/clearinghouse_domain_legislative/tenure_spans.py:286-322 | spans of every other kind come out as they went in, in id order |
| `OperatorOverlay.Depart` | packages/clearinghouse-domain-legislative/src/clearinghouse_domain_legislative/operator_overlay.py:332-399 | the departure sweep over the list it appends to terminates and computes the sweep of the positions that were there at first: the tails it adds are never swept by the event that added them |
| `OperatorOverlay.Vacate` | packages/clearinghouse-domain-legislative/src/clearinghouse_domain_legislative/operator_overlay.py:410-417 | exactly the spans of the seat whose window holds the date are closed |
| `OverlayReturns.VacancyEnds` | packages/clearinghouse-domain-legislative/src/clearinghouse_domain_legislative/operator_overlay.py:400-417 | a vacancy of an owned seat ends, on its day and with its basis, exactly the member's tenures of the seat that hold the day, and takes from them just the days after; nothing else moves, and other seats are not touched |
| `SeatingLaws.Seat` | packages/clearinghouse-domain-legislative/src/clearinghouse_domain_legislative/operator_overlay.py:426-503 | the loop over the targets, and the mint: exactly the spans the seating starts, whose id was not dated before, take its date and basis; no other field of any span and no other span moves; one span is appended exactly when the seating starts none and falls in the current biennium; and the ids dated are those before and these |
| `SeatingLaws.AfterSeatingIs` | packages/clearinghouse-domain-legislative/src/clearinghouse_domain_legislative/operator_overlay.py:426-503 | the seating as the event fold applies it has that same outcome |
| `SeatingLaws.TargetsSay` | packages/clearinghouse-domain-legislative/src/clearinghouse_domain_legislative/operator_overlay.py:430-435 | the targets are the spans of the seat whose window holds the date, or, when there are none, those the seating opens a biennium early |
| `SeatingLaws.SeatedOncePerTenure` | packages/clearinghouse-domain-legislative/src/clearinghouse_domain_legislative/operator_overlay.py:455-493 | the seating date remembered for an id never changes, whatever events follow, unless one mints a second tenure under that id |
| `OverlayReturns.SeatingSpeaks` | packages/clearinghouse-domain-legislative/src/clearinghouse_domain_legislative/operator_overlay.py:426-503 | a seating has that outcome when its seat is owned and does nothing otherwise |
| `OverlayReturns.AppointeeIsSpared` | packages/clearinghouse-domain-legislative/src/clearinghouse_domain_legislative/operator_overlay.py:332-346 | a departure on the day of a seating touches no tenure of the id the seating dated or minted, whatever came between, unless that was a mint under the same id |
| `OperatorOverlay.SynthesizeMoverTenures` | packages/clearinghouse-domain-legislative/src/clearinghouse_domain_legislative/operator_overlay.py:560-610 | the loop with its growing candidates and keys computes the mints proved about below |
| `OperatorOverlay.SweptOnward` | packages/clearinghouse-domain-legislative/src/clearinghouse_domain_legislative/operator_overlay.py:332-387 | a sweep keeps every position's id and start, and whatever it appends starts after the departure |
| `OverlayLaws.ApplyOperatorEvents` | packages/clearinghouse-domain-legislative/src/clearinghouse_domain_legislative/operator_overlay.py:265-504 | mint, then events seat-scoped first and by date, then the party merge: the method computes exactly that composition |
| `OverlayDepartures.EventsApplyInTurn` | packages/clearinghouse-domain-legislative/src/clearinghouse_domain_legislative/operator_overlay.py:265-331 | each event applies once: seat events by date, then departures by date, and events of one day and sort in the order given |
| `OverlayLaws.OverlaidPlain` | packages/clearinghouse-domain-legislative/src/clearinghouse_domain_legislative/operator_overlay.py:265-504 | every stage of the overlay keeps every span sound: closed, re-dated, minted and split ones alike |
| `OverlayDepartures.ClosingLosesTheGap` | packages/clearinghouse-domain-legislative/src/clearinghouse_domain_legislative/operator_overlay.py:213-221 | a closing takes from a tenure exactly the days after the departure, up to the return if the member returned; the one tail it may append keeps the rest under a new id |
| `OverlayReturns.TurnDecides` | packages/clearinghouse-domain-legislative/src/clearinghouse_domain_legislative/operator_overlay.py:332-399 | a tenure departed from ends on the day for good exactly when no tenure of the member on another seat starts after the day and before its end; ends and goes on as a tenure of its own, from the first such start, exactly when that lies in another biennium than its own; and is left whole exactly when it lies in its own |
| `OverlayReturns.SweepDecides` | packages/clearinghouse-domain-legislative/src/clearinghouse_domain_legislative/operator_overlay.py:332-399 | so for every tenure there was, over the list as it stands at its turn and the context, and no later turn undoes it |
| `OverlayDepartures.DepartedHoldNothingPast` | packages/clearinghouse-domain-legislative/src/clearinghouse_domain_legislative/operator_overlay.py:332-399 | after all events no tenure of a departed member runs past the departure, unless a tenure of its id opens that very day or the member returns on another seat inside its start biennium |
| `OverlayIds.IdsStayDistinctExactly` | packages/clearinghouse-domain-legislative/src/clearinghouse_domain_legislative/operator_overlay.py:332-503 | the overlay's ids are distinct exactly when they came in distinct and no event, as its turn comes, seats a tenure or splits a tail off under an id then held |
| `OverlayIds.ReappointmentTakesHeldId` | packages/clearinghouse-domain-legislative/src/clearinghouse_domain_legislative/operator_overlay.py:471-493 | distinct ids in do not suffice: a member vacated and seated again on one seat in the current biennium comes out with two spans of one id |
| `OverlayIdInputs.BuiltIdsStayDistinct` | packages/clearinghouse-domain-legislative/src/clearinghouse_domain_legislative/operator_overlay.py:332-503 | on built spans ids stay distinct if no departed member is named by a seat event and no seating of the current biennium claims an id held, or claimed by another |
| `OverlayIdInputs.DepartedBuiltHoldNothingPast` | packages/clearinghouse-domain-legislative/src/clearinghouse_domain_legislative/operator_overlay.py:332-399 | there no tenure of a departed member runs past the departure unless it opens that day itself or the member returns inside its start biennium |
| `OverlayDepartures.MintsOnlyForMovers` | packages/clearinghouse-domain-legislative/src/clearinghouse_domain_legislative/operator_overlay.py:560-610 | a mint is of a mover of the event's biennium and of the seat vacated, closed, inside that biennium, under an id no span has and no other mint has |
| `OverlayMints.MintsInTurn` | packages/clearinghouse-domain-legislative/src/clearinghouse_domain_legislative/operator_overlay.py:560-610 | event by event, one tenure is minted exactly when a mover vacates an owned seat and no span or earlier mint of the member and seat holds the day or has the id; it runs from the first day of the biennium, observed, to the vacancy, with the vacancy's basis |
| `OverlayMints.EveryMoverIsAccountedFor` | packages/clearinghouse-domain-legislative/src/clearinghouse_domain_legislative/operator_overlay.py:560-610 | after the pre-pass no mover's vacancy is without a tenure of the member and seat that holds its day, or one with the id it would take |
| `OverlayDepartures.UnnamedMembersAreLeftAlone` | packages/clearinghouse-domain-legislative/src/clearinghouse_domain_legislative/operator_overlay.py:265-504 | a member no event names comes out exactly as the party merge alone would leave them |
| `SeatClipping.ResolveMove` | packages/clearinghouse-domain-legislative/src/clearinghouse_domain_legislative/seat_clipping.py:310-328 | in place, the old seat is closed or nothing changes, as the move rule on the two spans says |
| `SeatClippingMoves.MoveMeans` | packages/clearinghouse-domain-legislative/src/clearinghouse_domain_legislative/seat_clipping.py:310-328 | a move closes the old seat exactly when the two overlap on different seats, the old end is only observed, the new start is stated and can be after the old start, and the old does not outlive the new; it closes it, derived, on the last day the new start can be, or on its own end if earlier |
| `SeatClippingMoves.NoMoveStaysDue` | packages/clearinghouse-domain-legislative/src/clearinghouse_domain_legislative/seat_clipping.py:258-274 | of one member's tenures of two single-holder seats none comes out of the whole pass with such a move between them still to make |
| `SeatClipping.ResolvePair` | packages/clearinghouse-domain-legislative/src/clearinghouse_domain_legislative/seat_clipping.py:331-414 | in place, the pair becomes what the handoff rule makes of it, everything else stays, and the refusal is the rule's |
| `SeatClippingMoves.HandoffMeans` | packages/clearinghouse-domain-legislative/src/clearinghouse_domain_legislative/seat_clipping.py:331-414 | a handoff that is not declined moves one edge: the successor opens on the first day the predecessor can have left, or the predecessor closes on the last day the successor can have come, whichever side's stated date decides |
| `SeatClipping.ClipSeatCounterparts` | packages/clearinghouse-domain-legislative/src/clearinghouse_domain_legislative/seat_clipping.py:244-301 | the nested loops over members and then seats, each pair seeing the edits before it, compute the pass proved about below, residue included |
| `SeatClippingNarrows.OverlapsMeans` | packages/clearinghouse-domain-legislative/src/clearinghouse_domain_legislative/seat_clipping.py:142-149 | the overlap test is strict intersection of the two windows, an open end unbounded, a shared day a handoff |
| `SeatClippingNarrows.PairNarrows` | packages/clearinghouse-domain-legislative/src/clearinghouse_domain_legislative/seat_clipping.py:152-204 | resolving a pair only narrows either side, and every edge it moves lands on a date the other side states |
| `SeatClippingNarrows.ClipOnlyNarrows` | packages/clearinghouse-domain-legislative/src/clearinghouse_domain_legislative/seat_clipping.py:244-414 | position for position the same tenures on windows inside their own; none loses its whole length; day-dated edges survive; moved edges are marked derived and land on a date the input states; every span stays one the constructor accepts |
| `SeatClippingNarrows.ClipKeepsSound` | packages/clearinghouse-domain-legislative/src/clearinghouse_domain_legislative/seat_clipping.py:174-204 | sound spans in, sound spans out |
| `SeatClippingResidue.ShrinkingMakesNoOverlap` | packages/clearinghouse-domain-legislative/src/clearinghouse_domain_legislative/seat_clipping.py:142-149 | narrowing two tenures never makes them overlap |
| `SeatClippingResidue.ResolvedHandoffTouches` | packages/clearinghouse-domain-legislative/src/clearinghouse_domain_legislative/seat_clipping.py:331-414 | a resolved handoff leaves its two tenures overlapping exactly when it had to work from a window: one side alone states its date, and not to the day |
| `SeatClippingResidue.ResidueIsExhaustive` | packages/clearinghouse-domain-legislative/src/clearinghouse_domain_legislative/seat_clipping.py:276-301 | two members' principal tenures of one single-holder seat come out of the whole pass not overlapping or named in the residue, unless one of them states an edge to a window only and the other does not state the edge across from it to the day |
| `SeatClippingWindows.AlonePairOverlapsExactly` | packages/clearinghouse-domain-legislative/src/clearinghouse_domain_legislative/seat_clipping.py:276-301 | two principals of one seat whom nobody else contends with come out of the whole pass as their own ruling left them, overlapping exactly when it declined to part them or had only a one-sided window to go by |
| `SeatClippingWindows.SilentOverlapExactly` | packages/clearinghouse-domain-legislative/src/clearinghouse_domain_legislative/seat_clipping.py:276-301 | two holders of a seat and nobody else come out overlapping and unreported exactly when they overlapped, the ruling gave no reason, and one side alone stated its date, to a window |
| `SeatClippingWindows.WindowLeavesSilentOverlap` | packages/clearinghouse-domain-legislative/src/clearinghouse_domain_legislative/seat_clipping.py:382-397 | it happens: a member who left on some day from the 100th to the 300th, and another only observed from day 50, overlap after the pass with an empty residue |
| `SeatClippingReasons.ReasonMeans` | packages/clearinghouse-domain-legislative/src/clearinghouse_domain_legislative/seat_clipping.py:331-414 | a handoff is declined for a reason exactly when that reason is warranted: which sides state their dates and how closely, where the new start would fall, which tenure outlives which, and, for a degenerate closing, both starting on one stated day |
| `SeatClippingReasons.AdmitsTwoMeans` | packages/clearinghouse-domain-legislative/src/clearinghouse_domain_legislative/seat_clipping.py:230-241 | a seat admits two holders over an overlap exactly when some day of both tenures falls in a period of the capacity table with more than one holder or no limit; for periods that do not end before they start |
| `SeatClippingReasons.ReportsAreReal` | packages/clearinghouse-domain-legislative/src/clearinghouse_domain_legislative/seat_clipping.py:276-301 | every reported overlap is one: two different members' principal tenures of that seat overlapped in the input, and the reason reported is warranted of what the pass had narrowed them to |
| `SeatClippingSettles.MoveSettlesOnce` | packages/clearinghouse-domain-legislative/src/clearinghouse_domain_legislative/seat_clipping.py:310-328 | resolving a move again changes nothing |
| `SeatClippingSettles.PairSettlesOnce` | packages/clearinghouse-domain-legislative/src/clearinghouse_domain_legislative/seat_clipping.py:331-414 | resolving a pair right after it was resolved or refused changes nothing and gives the same verdict |
| `SeatClippingSettles.ClipProgresses` | packages/clearinghouse-domain-legislative/src/clearinghouse_domain_legislative/seat_clipping.py:244-301 | a pass that changes anything strictly lowers total window length, or keeps it and lowers what is left unsettled |
| `SeatClippingSettles.RepeatingStabilises` | packages/clearinghouse-domain-legislative/src/clearinghouse_domain_legislative/seat_clipping.py:244-301 | repeating the pass reaches spans it leaves alone after finitely many passes |
| `SeatClippingSettles.RestsExactlyWhenQuiet` | packages/clearinghouse-domain-legislative/src/clearinghouse_domain_legislative/seat_clipping.py:244-301 | the pass is a no-op exactly on spans of which no single pair, looked at alone, would be clipped |
| `SeatClippingSecondPass.SecondPassCanClip` | packages/clearinghouse-domain-legislative/src/clearinghouse_domain_legislative/seat_clipping.py:276-301 | the pass is not idempotent: three sound tenures whose clipped form a second pass clips again |
| `SeatClippingSecondPass.ThreeClippedAgainExactly` | packages/clearinghouse-domain-legislative/src/clearinghouse_domain_legislative/seat_clipping.py:276-301 | three holders of a seat, the later two seated on stated days and no end stated, are clipped again by a second pass exactly when the first outlives the second but not the third, and the third is seated no later than the second ends |
| `SeatClippingIdempotent.IdempotentUnlessCrowded` | packages/clearinghouse-domain-legislative/src/clearinghouse_domain_legislative/seat_clipping.py:244-301 | clipping again leaves the clipped spans as they are, on every input of which no principal's tenure contends with two others: overlaps two tenures of other members of its seat, some date being stated |
| `SeatClippingIdempotent.ClippedAgainOnlyInACrowd` | packages/clearinghouse-domain-legislative/src/clearinghouse_domain_legislative/seat_clipping.py:276-301 | the converse, pair by pair: whatever pair a second pass would clip again contended in the input, and one of the two contended there with a third tenure |
| `SeatClippingSecondPass.MemberAxisSettles` | packages/clearinghouse-domain-legislative/src/clearinghouse_domain_legislative/seat_clipping.py:258-274 | the member axis needs no second pass, whatever the seat axis did after it |
| `SeatClippingOrder.OrderDoesNotMatter` | packages/clearinghouse-domain-legislative/src/clearinghouse_domain_legislative/seat_clipping.py:244-301 | if no member has two spans of one seat with one start, permuting the input permutes the output alike and leaves the residue as it was |
| `SeatClippingOrder.ClipSeatFamilies` | packages/clearinghouse-domain-legislative/src/clearinghouse_domain_legislative/seat_clipping.py:417-443 | the cursor loop gives each source back its slice of the clipped union |
| `SeatClippingOrder.FamilyOrderDoesNotMatter` | packages/clearinghouse-domain-legislative/src/clearinghouse_domain_legislative/seat_clipping.py:417-443 | each source gets the same spans and the residue is the same, in whatever order the families come |
| `SpanPipeline.PipelineIsSound` | packages/clearinghouse-domain-legislative/src/clearinghouse_domain_legislative/seat_clipping.py:244-301 | whatever was observed and whatever the events, every span that comes out of the clip is sound, with each edge's interval inside it |
| `SpanPipeline.BuiltThenOverlaid` | packages/clearinghouse-domain-legislative/src/clearinghouse_domain_legislative/operator_overlay.py:265-504 | what the builder emits the overlay accepts, and what it emits the clip accepts |
| `CommitteeSuccession.BuildAdjacency` | packages/clearinghouse-domain-legislative/src/clearinghouse_domain_legislative/committee_succession.py:132-139 | the adjacency map is the forward-flow graph of the links, split links reversed, every node present |
| `CommitteeSuccession.Visit` | packages/clearinghouse-domain-legislative/src/clearinghouse_domain_legislative/committee_succession.py:142-166 | the stack loop terminates, reports only simple cycles through its path, and finishes every node it reaches with each edge reported or leading to a node finished before |
| `CommitteeSuccession.FindSuccessionCycles` | packages/clearinghouse-domain-legislative/src/clearinghouse_domain_legislative/committee_succession.py:120-171 | every list returned is a simple cycle of the graph starting at its smallest node, none twice, sorted; every closed walk takes a step of some reported cycle; so the result is non-empty exactly when the graph has a cycle; and what is returned is exactly the cycles one edge closes on a path of the forest the search walked |
| `CommitteeSuccession.CyclesApartAreAllReported` | packages/clearinghouse-domain-legislative/src/clearinghouse_domain_legislative/committee_succession.py:120-130 | where no two simple cycles share a step, every simple cycle is returned |
| `CommitteeSuccession.SomeCycleIsMissed` | packages/clearinghouse-domain-legislative/src/clearinghouse_domain_legislative/committee_succession.py:120-130 | not every simple cycle is returned: of the two ways round three committees linked in all directions one is missed, whatever forest the search walks |
| `CommitteeSuccession.NormalisedOnce` | packages/clearinghouse-domain-legislative/src/clearinghouse_domain_legislative/committee_succession.py:155-157 | rotations of one cycle that both start at their smallest node are equal: one representation per cycle |
| `CommitteeSuccession.SomeStepReported` | packages/clearinghouse-domain-legislative/src/clearinghouse_domain_legislative/committee_succession.py:142-166 | no closed walk only ever steps to nodes finished before |
| `RawStores.NewestIsUnique` | packages/clearinghouse-core/src/clearinghouse_core/rawstore.py:170-174 | with distinct fetch times the newest-ok index is determined by the fetches |
| `RawStores.MergeIsNewest` | packages/clearinghouse-core/src/clearinghouse_core/rawstore.py:201-215 | merging a run's entries into the newest-ok index of some fetches gives that of those and the run's |
| `RawStores.NoNewerChangesNothing` | packages/clearinghouse-core/src/clearinghouse_core/rawstore.py:201-215 | a run whose fetches of a resource are no newer than the index's, or just as new, leaves its row alone |
| `RawStores.RawStore.MergeLatest` | packages/clearinghouse-core/src/clearinghouse_core/rawstore.py:201-215 | the loop over the index in place keeps it the newest-ok index, a later run with older fetches never taking it back |
| `RawStores.RawStore.PutObject` | packages/clearinghouse-core/src/clearinghouse_core/rawstore.py:102-118 | bytes are stored under their hash; a taken name keeps the bytes it has; a store whose objects are what their names say stays so |
| `RawStores.RawStore.RebuildLatest` | packages/clearinghouse-core/src/clearinghouse_core/rawstore.py:165-187 | whatever the index was, it becomes the newest-ok index of all manifests |
| `RawStores.ReplayIsNewest` | packages/clearinghouse-core/src/clearinghouse_core/rawstore.py:165-187 | replaying manifests in any order gives the newest-ok index of all of them |
| `RawStores.RawRun.Record` | packages/clearinghouse-core/src/clearinghouse_core/rawstore.py:234-277 | one entry is buffered, naming the stored bytes if there are any |
| `RawStores.RawRun.Close` | packages/clearinghouse-core/src/clearinghouse_core/rawstore.py:279-294 | the manifest becomes visible and the index stays the newest-ok index of every manifest |
| `RawStores.RecordFetch` | packages/clearinghouse-core/src/clearinghouse_core/rawstore.py:297-351 | a fetch is skipped exactly when a time to live is given and a filed run fetched the resource within it; skipped, errored and fetched are exclusive and one of their counters moves by one with one entry, unless the payload has no bytes; every ok entry names bytes in the store |
| `RawStores.FreshMeans` | packages/clearinghouse-core/src/clearinghouse_core/rawstore.py:138-150 | a resource is fresh exactly when some manifest has an ok fetch of it within the time to live, the index being the newest-ok fold of the manifests |
| `RawConcurrency.StepKeepsInv` | packages/clearinghouse-core/src/clearinghouse_core/rawstore.py:152-198 | each atomic step of closing, rebuilding or crashing keeps the index a newest-ok fold of written manifests and the lock with its holder |
| `RawConcurrency.IndexIsAlwaysAFold` | packages/clearinghouse-core/src/clearinghouse_core/rawstore.py:152-198 | at every moment of every interleaving the index is the newest-ok fold of some written manifests that include every run that finished closing |
| `RawConcurrency.NothingGoesBack` | packages/clearinghouse-core/src/clearinghouse_core/rawstore.py:201-215 | no step ever drops a resource from the index or takes it back in time |
| `RawConcurrency.QuiescentIndexIsComplete` | packages/clearinghouse-core/src/clearinghouse_core/rawstore.py:152-163 | when nobody is midway and nobody crashed the index is the fold of all manifests |
| `RawConcurrency.InterleavingsConverge` | packages/clearinghouse-core/src/clearinghouse_core/rawstore.py:152-163 | two quiescent histories that filed the same manifests end with the same index, fetch times being distinct |
| `RawConcurrency.RebuildIsComplete` | packages/clearinghouse-core/src/clearinghouse_core/rawstore.py:165-187 | a rebuild, crashes or not, leaves the index the fold of every manifest there was when it listed them |
| `RawProgress.EveryoneCanFinish` | packages/clearinghouse-core/src/clearinghouse_core/rawstore.py:152-198 | nobody is stuck: at every moment of every interleaving whoever has not crashed can finish, by its own steps and those of whoever holds the lock, and a run that does has filed just what it buffered and is in the index |
| `RawIntegrity.Expect` | packages/clearinghouse-core/src/clearinghouse_core/rawstore.py:369-380 | the three nested loops collect each key some manifest names, once, within the scope |
| `RawIntegrity.VerifyStore` | packages/clearinghouse-core/src/clearinghouse_core/rawstore.py:354-397 | the loop reports exactly what re-hashing the keys past the cursor does, up to the first one at which the budget is spent |
| `RawIntegrity.StateFile.LoadState` | packages/clearinghouse-core/src/clearinghouse_core/raw_integrity.py:44-58 | both shapes the state file has had read as the same cursor per scope |
| `RawIntegrity.StateFile.StoreCursor` | packages/clearinghouse-core/src/clearinghouse_core/raw_integrity.py:61-79 | the scope's cursor is replaced, or pruned if cleared, and no other scope's cursor moves |
| `RawIntegrity.SweepJob` | packages/clearinghouse-core/src/clearinghouse_core/raw_integrity.py:111-158 | a run reports its pass, or, when that found the cursor at the tail, a fresh pass with the tail's findings merged in; it stores the next cursor unless dry; and its outcome follows the report |
| `RawCoverage.ExaminedSlice` | packages/clearinghouse-core/src/clearinghouse_core/rawstore.py:381-396 | a pass examines one contiguous slice of the sorted keys, and is partial exactly when the slice stops short |
| `RawCoverage.PassCost` | packages/clearinghouse-core/src/clearinghouse_core/rawstore.py:381-396 | a pass hashes less than its budget before the last object it touches, and at least its budget if it stops early |
| `RawCoverage.BadMeans` | packages/clearinghouse-core/src/clearinghouse_core/rawstore.py:388-396 | an object is bad exactly when its source has none under its name or what it has does not hash to it, and costs its bytes or nothing |
| `RawCoverage.RunCost` | packages/clearinghouse-core/src/clearinghouse_core/raw_integrity.py:111-135 | a run, of one pass or of two, hashes just the bytes it reports, and less than its budget before the last object it touches: a pass that makes it start over hashed nothing |
| `RawSuccession.CursorLeft` | packages/clearinghouse-core/src/clearinghouse_core/raw_integrity.py:133-135 | with something referenced and budget to read it, a run that comes to the last key leaves no cursor, and any other leaves the last key it examined |
| `RawSuccession.NoCursorLeft` | packages/clearinghouse-core/src/clearinghouse_core/raw_integrity.py:133-135 | with nothing referenced, or a negative budget, a run leaves none |
| `RawSuccession.NextBeginsAtTheTop` | packages/clearinghouse-core/src/clearinghouse_core/raw_integrity.py:111-135 | after a run that came to the end the next one begins with the first key there is |
| `RawSuccession.NothingIsSkipped` | packages/clearinghouse-core/src/clearinghouse_core/raw_integrity.py:111-135 | over any successive runs of a scope, of any budgets, dry or not, each finding the cursor the one before left: between one that comes to the end and the next that does, every object referenced all the while is examined |
| `RawSuccession.BadIsFound` | packages/clearinghouse-core/src/clearinghouse_core/raw_integrity.py:111-156 | and one that is bad all the while makes one of those runs fail |
| `RawCoverage.FailsExactlyOnBad` | packages/clearinghouse-core/src/clearinghouse_core/raw_integrity.py:123-156 | a run fails exactly when it examined a missing or mismatched object, a wrap losing no finding |
| `RawCoverage.NothingToVerify` | packages/clearinghouse-core/src/clearinghouse_core/raw_integrity.py:145-147 | a run has nothing to verify exactly when nothing is referenced or the budget is negative |
| `RawCoverage.CycleCoversEverything` | packages/clearinghouse-core/src/clearinghouse_core/raw_integrity.py:111-135 | every object referenced when a cycle starts and still referenced while it lasts is examined before the cycle completes, however the manifests grow |
| `RawCoverage.BadObjectFailsItsCycle` | packages/clearinghouse-core/src/clearinghouse_core/raw_integrity.py:111-156 | an object that stays bad makes some run of every complete cycle fail |
| `RawCoverage.CycleIsBounded` | packages/clearinghouse-core/src/clearinghouse_core/raw_integrity.py:111-135 | over a fixed store of T bytes a cycle takes at most T / budget + 1 runs |
| `Tombstones.ResolveMerged` | packages/clearinghouse-core/src/clearinghouse_core/registry.py:181-187 | the walk terminates on any merge map and computes the resolution proved about below |
| `Tombstones.ResolveIsIdempotent` | packages/clearinghouse-core/src/clearinghouse_core/registry.py:181-187 | resolving what has been resolved changes nothing, also when the chain runs into a cycle |
| `Tombstones.ResolvesToSurvivor` | packages/clearinghouse-core/src/clearinghouse_core/registry.py:181-187 | the result is not merged away exactly when the chain ends, and it is then the chain's only end |
| `Tombstones.ResolvesToItself` | packages/clearinghouse-core/src/clearinghouse_core/registry.py:181-187 | an entity resolves to itself exactly when it is a survivor or on a cycle |
| `Tombstones.SameAlongTheChain` | packages/clearinghouse-core/src/clearinghouse_core/registry.py:181-187 | an entity resolves as the one it was merged into does, except exactly on a cycle of more than one |
| `Registries.DecideMeans` | packages/clearinghouse-core/src/clearinghouse_core/registry.py:144-164 | which row of the table applies, told from the known keys: they disagree, there are none, all are known, or some are new; and which keys are to be registered |
| `Registries.RegistryTables.RegisteredView` | packages/clearinghouse-core/src/clearinghouse_core/registry.py:190-204 | each key of the kind is shown with the survivor of its entity |
| `Registries.RegistryTables.ApplyDecision` | packages/clearinghouse-core/src/clearinghouse_core/registry.py:207-237 | a mint or append writes its rows all or none, a broken constraint undoing it; a noop or conflict writes nothing |
| `RegistryLedger.NeverRefused` | packages/clearinghouse-core/src/clearinghouse_core/registry.py:144-237 | a decision taken on a fresh view with a new id never meets a constraint: no key is registered twice |
| `RegistryLedger.RegisteringIsSticky` | packages/clearinghouse-core/src/clearinghouse_core/registry.py:144-237 | bindings and entities there were stay as they were, only the cluster's unknown keys are added, all to the entity returned, and a conflict writes nothing |
| `RegistryLedger.RunningViewIsFresh` | packages/usa-wa-pipeline/src/usa_wa_pipeline/registrar.py:95-118 | the view the registrar keeps by hand is the view it would read afresh |
| `RegistryLedger.ClusterIsSettled` | packages/clearinghouse-core/src/clearinghouse_core/registry.py:144-237 | after any verdict but a conflict all keys of the cluster resolve to the entity returned, and deciding again is a noop; an empty cluster mints every time |
| `RegistryLedger.NewKeysBindLive` | packages/clearinghouse-core/src/clearinghouse_core/registry.py:144-237 | a new key is bound to a merged-away entity exactly when the known keys resolve into a cycle of tombstones |
| `RegistryLedger.RunRegistrar` | packages/usa-wa-pipeline/src/usa_wa_pipeline/registrar.py:90-120 | with the view taken once, every cluster is decided as on a fresh one, and the counters count those decisions |
| `RegistryLedger.TallyCounts` | packages/usa-wa-pipeline/src/usa_wa_pipeline/registrar.py:90-120 | each counter is the number of clusters with that verdict, each decided with those before it registered |
| `RegistrarClusters.Forest.Find` | packages/usa-wa-pipeline/src/usa_wa_pipeline/registrar.py:72-77 | path halving terminates at the key's root and changes no key's root |
| `RegistrarClusters.Forest.Union` | packages/usa-wa-pipeline/src/usa_wa_pipeline/registrar.py:79-82 | the two trees become one under the right root, all other roots unchanged |
| `RegistrarClusters.ClusterPairs` | packages/usa-wa-pipeline/src/usa_wa_pipeline/registrar.py:68-87 | the clusters are exactly the connected components of the pairs |
| `RegistrarClusters.SplitsByLinks` | packages/usa-wa-pipeline/src/usa_wa_pipeline/registrar.py:68-87 | two keys have one root exactly when the pairs join them |
| `RegistrarClusters.JoinedByAPath` | packages/usa-wa-pipeline/src/usa_wa_pipeline/registrar.py:68-87 | two keys are joined, no set of keys the pairs do not leave parting them, exactly when a path of pairs leads from one to the other |
| `RegistryHistory.AdjudicateMerge` | packages/usa-wa-pipeline/src/usa_wa_pipeline/adjudicate.py:71-88 | the loser is tombstoned exactly when both are live entities of the kind and differ |
| `RegistryHistory.AdjudicateUnmerge` | packages/usa-wa-pipeline/src/usa_wa_pipeline/adjudicate.py:102-116 | the tombstone is cleared exactly when there is one |
| `RegistryHistory.AdjudicateMove` | packages/usa-wa-pipeline/src/usa_wa_pipeline/adjudicate.py:164-191 | the key is re-pointed exactly when it is registered and the destination is live |
| `RegistryVerbs.MergeMeans` | packages/usa-wa-pipeline/src/usa_wa_pipeline/adjudicate.py:71-88 | a merge tombstones the loser exactly when both are standing entities of the kind and differ, and touches nothing else |
| `RegistryVerbs.MergeRedirects` | packages/usa-wa-pipeline/src/usa_wa_pipeline/adjudicate.py:71-88 | it redirects what resolved to the loser to the survivor, and nothing else |
| `RegistryVerbs.UnmergeMeans` | packages/usa-wa-pipeline/src/usa_wa_pipeline/adjudicate.py:102-116 | an unmerge stands an entity up again exactly when it was merged away, and touches nothing else |
| `RegistryVerbs.UnmergeUndoesMerge` | packages/usa-wa-pipeline/src/usa_wa_pipeline/adjudicate.py:102-116 | an unmerge takes a merge back, to the letter |
| `RegistryVerbs.MoveMeans` | packages/usa-wa-pipeline/src/usa_wa_pipeline/adjudicate.py:164-191 | a move re-points exactly the one registered key, to a standing entity |
| `RegistryVerbs.MoveBackUndoesMove` | packages/usa-wa-pipeline/src/usa_wa_pipeline/adjudicate.py:164-191 | moving the key back takes a move back, if what it was bound to stands |
| `RegistryHistory.MergingKeepsEnds` | packages/usa-wa-pipeline/src/usa_wa_pipeline/adjudicate.py:71-88 | merging one live entity into another never closes a cycle of tombstones |
| `RegistryHistory.StepKeepsCoherent` | packages/usa-wa-pipeline/src/usa_wa_pipeline/adjudicate.py:71-191 | every registration and adjudication keeps the foreign keys, the kinds and the absence of tombstone cycles |
| `RegistryHistory.RegisteredKeysAreLive` | packages/clearinghouse-core/src/clearinghouse_core/registry.py:144-237 | in any history, a cluster registered without conflict resolves to one live entity and its new keys are bound to that entity itself |
| `RegistryHistory.BindingsStick` | packages/clearinghouse-core/src/clearinghouse_core/registry.py:144-237 | in any history a registered key stays registered, to the same entity unless a move re-pointed it |
| `RateLimit.RateLimiter.Acquire` | packages/usa-wa-adapter-legislature/src/usa_wa_adapter_legislature/ratelimit.py:45-54 | the caller gets the later of now and the first free slot, waits just until it, and leaves the next slot one interval on; a disabled limiter neither waits nor reserves |
| `RateLimit.OnlyAnIntervalLimits` | packages/usa-wa-adapter-legislature/src/usa_wa_adapter_legislature/ratelimit.py:45-47 | with no interval in force a caller is neither queued nor delayed and reserves nothing; with one it is queued |
| `RateLimit.NobodyPassesEarly` | packages/usa-wa-adapter-legislature/src/usa_wa_adapter_legislature/ratelimit.py:45-54 | under any interleaving no caller is let through before the slot of its own reservation, no two callers share a reservation, and each slot follows from the reservation before it |
| `RateLimit.EveryCallerComesThrough` | packages/usa-wa-adapter-legislature/src/usa_wa_adapter_legislature/ratelimit.py:45-54 | at every moment of every interleaving whoever called can come through on the slot of its reservation, or at once if that has gone, waiting for nobody but the one in the lock to make its own |
| `RateLimit.SlotIsLatestDemand` | packages/usa-wa-adapter-legislature/src/usa_wa_adapter_legislature/ratelimit.py:49-51 | a slot is exactly as late as the callers up to it require, whatever intervals were in force |
| `RateLimit.SlotIsMaximum` | packages/usa-wa-adapter-legislature/src/usa_wa_adapter_legislature/ratelimit.py:49-51 | at a fixed interval q, from a clock at or above zero, slot k is the maximum of now_j + (k - j) * q over j up to k |
| `RateLimit.SlotsAreApart` | packages/usa-wa-adapter-legislature/src/usa_wa_adapter_legislature/ratelimit.py:49-51 | slots are at least the intervals between them apart |
| `RateLimit.SlotsInAPeriod` | packages/usa-wa-adapter-legislature/src/usa_wa_adapter_legislature/ratelimit.py:49-51 | at a fixed interval q any period of length L holds at most floor(L / q) + 1 slots |
| `RateLimit.FirstCallNeverWaits` | packages/usa-wa-adapter-legislature/src/usa_wa_adapter_legislature/ratelimit.py:45-50 | the first caller gets its own time as its slot exactly when the clock does not read below zero |
| `RateLimit.PunctualCallersAreSpaced` | packages/usa-wa-adapter-legislature/src/usa_wa_adapter_legislature/ratelimit.py:45-54 | a caller let through at its own slot is followed by every caller of a later reservation no sooner than the intervals between them |
| `RateLimit.BunchingFollowsLateness` | packages/usa-wa-adapter-legislature/src/usa_wa_adapter_legislature/ratelimit.py:45-54 | when a caller has just come through, some continuation lets the next caller through less than an interval behind it exactly when it came through later than its slot |
| `RateLimit.CallersMayBunch` | packages/usa-wa-adapter-legislature/src/usa_wa_adapter_legislature/ratelimit.py:20-54 | it happens at every interval: an interleaving in which two callers pass at the same time |

## Left out

- CommitteeSuccession.FindSuccessionCycles: the docstring promises each simple cycle; the code, expanding each node once, can miss some (SomeCycleIsMissed). What it returns is stated exactly, by the forest it walks; that no two cycles share a step is sufficient for all to be returned, and is not claimed to be necessary, since that depends on where the search starts.
- SeatClipping.ClipSeatCounterparts: the module calls the pass idempotent; a second pass can clip again (SecondPassCanClip). Proved: it is idempotent unless a tenure contends with two others (IdempotentUnlessCrowded), a crowd that may still be clipped once only; which it is, is decided exactly for three holders with stated starts (ThreeClippedAgainExactly), and for any number by RestsExactlyWhenQuiet on the output.
- SeatClippingResidue.ResidueIsExhaustive: leaves out pairs that state an edge to a window only, against an edge not stated to the day: the claim fails of them (WindowLeavesSilentOverlap). Tenures without windows are never such a pair (WindowlessIsFirm). AlonePairOverlapsExactly and SilentOverlapExactly say exactly when, for a pair no third tenure contends with.
- Tenure.SourceIdTellsSpansApart: assumes member ids and kinds without a colon; the builder and merge are proved about the id's parts.
- SeatClippingOrder.OrderDoesNotMatter: assumes no member has two spans of one seat with one start, where the sort falls back on input order.
- SeatClippingReasons.AdmitsTwoMeans: is about periods that do not end before they start; the test itself is modelled for any.
- PartyMergeLaws.MergeIsIdempotent: assumes distinct ids and no two parties with the same start date and start biennium for one member, where the sort falls back on input order; MergeOrderDoesNotMatter assumes the same.
- OverlayLaws.ApplyOperatorEvents: takes spans without windows, as the builder emits them: the code's re-dating of a windowed span can be refused by the span constructor, which is not modelled here.
- OverlayDepartures.DepartedHoldNothingPast: is about the spans before the closing party merge, which may rejoin what a departure closed; applying the overlay twice is therefore not claimed to be a no-op. Where ids collide, the exception speaks of a tenure of the same id.
- TenureBuilder.BuildTenureSpans: bienniums are odd start years. Labels, and the sort on them, are dealt with separately by LabelRoundTrip and LabelOrder; a roster labelled with an even start year, or by a digit outside 0-9, is not modelled.
- RawStores.RecordFetch: url, content type, extra manifest keys and logging are left out; times are natural numbers in the order of their fixed-width text.
- RegistryLedger.RunRegistrar: clusters come as a sequence in any order, since ClusterPairs does not model dictionary order; new entity ids are given and assumed new.
- RegistryHistory.AdjudicateMerge: the trail rows of the adjudications table, and the register verb with its key pattern and same-fold guard, are not modelled.
- SeatingLaws.SeatedOncePerTenure: the code means one date per tenure; its record is by id, and a mint under an id already dated replaces the date (MintedOver names exactly that case).
- Dates are day numbers from 0001-01-01 to 9998-12-31: a biennium that would end in 10000 has no last day to model.
- Hashing is an abstract function; files are maps, a rename is one step, flock is a mutex a crash releases, run ids are new.
- The overlay's logging, its departure-miss reports, inverted-date warnings and the set of applied departures: no effect on spans.
- The job harness, its counters and exit codes beyond the three outcomes, argument parsing and `env_float`.
- Database sessions, ORM tables and migrations; a failed flush is modelled as the whole transaction undone.
- Floating-point rounding, infinities and NaN in the rate limiter; a sleep is assumed to last at least as long as asked.
- SOAP, HTTP and SODA transports, harvesters, the conformed and dbt layers, election calendar and vocabularies: plumbing or constant data.
