/** Telemetry observes decisions and cannot influence them; every request is accounted for as captured or failed. */
module TelemetryRuns {
  import opened Collections
  import opened Domain
  import opened DecisionRecords
  import opened Telemetry
  import opened Identifiers
  import opened ServiceModel
  import opened ServiceRuns
  import M = Metrics

  /** Two services agree on everything but telemetry: world, records, and how many decisions were numbered. */
  predicate SameCore<S(==)>(a: ServiceState<S>, b: ServiceState<S>) {
    a.world == b.world && a.records == b.records && Issued(a.counters, DEC) == Issued(b.counters, DEC)
  }

  /** Two results agree on everything but whether telemetry was captured. */
  predicate SameDecision(a: Result<GovernedResult, HandleError>, b: Result<GovernedResult, HandleError>) {
    if a.Success? then b.Success? && a.value.(telemetryCaptured := b.value.telemetryCaptured) == b.value else a == b
  }

  lemma {:induction false} FinalizeIgnoresTelemetry<S>(
      w: Wiring<S>, one: RecorderSettings, other: RecorderSettings, seed: string, s: ServiceState<S>,
      t: ServiceState<S>,
      req: TrustRequest, now: Clocks, later: Clocks, j: Judged<S>)
    requires SameCore(s, t) && now.service == later.service
    ensures var x, y := Finalize(w, one, seed, s, req, now, j), Finalize(w, other, seed, t, req, later, j);
            SameCore(x.after, y.after) && SameDecision(x.result, y.result) && x.effects == y.effects
  {
    IssueSeparates(s.counters);
    IssueSeparates(t.counters);
  }

  predicate SameDecisions(xs: seq<Result<GovernedResult, HandleError>>, ys: seq<Result<GovernedResult, HandleError>>) {
    |xs| == |ys| && forall i :: 0 <= i < |xs| ==> SameDecision(xs[i], ys[i])
  }

  lemma {:induction false} SameOneMore(
      x: Result<GovernedResult, HandleError>, xs: seq<Result<GovernedResult, HandleError>>,
      y: Result<GovernedResult, HandleError>, ys: seq<Result<GovernedResult, HandleError>>)
    requires SameDecision(x, y) && SameDecisions(xs, ys)
    ensures SameDecisions([x] + xs, [y] + ys)
  {
  }

  /** The same request on the same evidence at the same service time, whatever the recorder's clock reads. */
  predicate SameArrival(a: Arrival, b: Arrival) {
    a.request == b.request && a.evidence == b.evidence && a.now.service == b.now.service
  }

  predicate SameArrivals(xs: seq<Arrival>, ys: seq<Arrival>) {
    |xs| == |ys| && forall i :: 0 <= i < |xs| ==> SameArrival(xs[i], ys[i])
  }

  lemma {:induction false} HandleIgnoresTelemetry<S>(
      w: Wiring<S>, one: RecorderSettings, other: RecorderSettings, seed: string, s: ServiceState<S>,
      t: ServiceState<S>,
      a: Arrival, b: Arrival)
    requires SameCore(s, t) && SameArrival(a, b)
    ensures var x, y := Handle(w, one, seed, s, a), Handle(w, other, seed, t, b);
            SameCore(x.after, y.after) && SameDecision(x.result, y.result) && x.effects == y.effects
  {
    FinalizeIgnoresTelemetry(w, one, other, seed, s, t, a.request, a.now, b.now,
                             Judge(w, s.world, a.request, a.evidence));
  }

  /** Over every run, and whatever their recorders share with them, are told, do, or have done before, two
      services that differ only in telemetry give the same decisions and records, identifiers and timestamps
      included, and end with the same store. */
  lemma {:induction false} TelemetryCannotInfluence<S>(
      w: Wiring<S>, one: RecorderSettings, other: RecorderSettings, seed: string, s: ServiceState<S>,
      t: ServiceState<S>,
      arrivals: seq<Arrival>, others: seq<Arrival>)
    requires SameCore(s, t) && SameArrivals(arrivals, others)
    ensures var x, y := Run(w, one, seed, s, arrivals), Run(w, other, seed, t, others);
            && SameCore(x.after, y.after)
            && |x.results| == |arrivals|
            && SameDecisions(x.results, y.results)
    decreases |arrivals|
  {
    if arrivals != [] {
      HandleIgnoresTelemetry(w, one, other, seed, s, t, arrivals[0], others[0]);
      var p, q := Handle(w, one, seed, s, arrivals[0]), Handle(w, other, seed, t, others[0]);
      TelemetryCannotInfluence(w, one, other, seed, p.after, q.after, arrivals[1..], others[1..]);
      SameOneMore(p.result, Run(w, one, seed, p.after, arrivals[1..]).results,
                  q.result, Run(w, other, seed, q.after, others[1..]).results);
    }
  }

  /** Captured and failed together. */
  function Observed(c: Capture): nat { |c.events| + c.failures }

  lemma {:induction false} FinalizeCaptures<S>(
      w: Wiring<S>, recorder: RecorderSettings, seed: string, s: ServiceState<S>, req: TrustRequest, now: Clocks,
      j: Judged<S>)
    requires Finalize(w, recorder, seed, s, req, now, j).result.Success?
    ensures var finalized := Finalize(w, recorder, seed, s, req, now, j);
            && finalized.result.value.telemetryCaptured == !recorder.outage(s.capture.attempts)
            && finalized.after.capture.attempts == s.capture.attempts + 1
            && Observed(finalized.after.capture) == Observed(s.capture) + 1
  {
    var n := Issued(Issue(RecorderCounters(recorder, s), EVT), EVT);
    IdentifiersDistinct(EVT, recorder.seed, n, 0);
    var record := Finalize(w, recorder, seed, s, req, now, j).result.value.record;
    EventsAreValid(Identifier(EVT, recorder.seed, n), now.recorder, record, j.quality, recorder.environment,
                   recorder.population);
  }

  lemma {:induction false} HandleCaptures<S>(
      w: Wiring<S>, recorder: RecorderSettings, seed: string, s: ServiceState<S>, a: Arrival)
    requires Handle(w, recorder, seed, s, a).result.Success?
    ensures var handled := Handle(w, recorder, seed, s, a);
            && handled.result.value.telemetryCaptured == !recorder.outage(s.capture.attempts)
            && handled.after.capture.attempts == s.capture.attempts + 1
            && Observed(handled.after.capture) == Observed(s.capture) + 1
  {
    FinalizeCaptures(w, recorder, seed, s, a.request, a.now, Judge(w, s.world, a.request, a.evidence));
  }

  predicate AllSucceed(results: seq<Result<GovernedResult, HandleError>>) {
    results == [] || (results[0].Success? && AllSucceed(results[1..]))
  }

  lemma {:induction false} StoredSucceed(
      results: seq<Result<GovernedResult, HandleError>>, records: Records, position: nat)
    requires StoredFrom(results, records, position)
    ensures AllSucceed(results)
  {
    if results != [] {
      assert StoredAs(results[0], records, position + 0);
      forall i | 0 <= i < |results[1..]| ensures StoredAs(results[1..][i], records, position + 1 + i) {
        assert StoredAs(results[i + 1], records, position + (i + 1));
        assert position + (i + 1) == position + 1 + i;
      }
      StoredSucceed(results[1..], records, position + 1);
    }
  }

  /** A request succeeded, and was captured exactly when the store took the given write. */
  predicate CapturedAt(result: Result<GovernedResult, HandleError>, recorder: RecorderSettings, write: nat) {
    result.Success? && result.value.telemetryCaptured == !recorder.outage(write)
  }

  /** From a given write on, each result was captured exactly when the store took that write. */
  predicate CapturedFrom(results: seq<Result<GovernedResult, HandleError>>, recorder: RecorderSettings, write: nat)
    decreases |results|
  {
    results == [] || (CapturedAt(results[0], recorder, write) && CapturedFrom(results[1..], recorder, write + 1))
  }

  lemma {:induction false} CapturedOneMore(
      head: Result<GovernedResult, HandleError>, tail: seq<Result<GovernedResult, HandleError>>,
      recorder: RecorderSettings, write: nat)
    requires CapturedAt(head, recorder, write) && CapturedFrom(tail, recorder, write + 1)
    ensures CapturedFrom([head] + tail, recorder, write)
  {
    assert ([head] + tail)[1..] == tail;
  }

  /** Read position by position. */
  lemma {:induction false} CapturedMeaning(
      results: seq<Result<GovernedResult, HandleError>>, recorder: RecorderSettings, write: nat)
    requires CapturedFrom(results, recorder, write)
    ensures forall i :: 0 <= i < |results| ==> CapturedAt(results[i], recorder, write + i)
    decreases |results|
  {
    if results != [] {
      CapturedMeaning(results[1..], recorder, write + 1);
      forall i | 0 < i < |results| ensures CapturedAt(results[i], recorder, write + i) {
        assert results[1..][i - 1] == results[i] && write + 1 + (i - 1) == write + i;
      }
    }
  }

  lemma {:induction false} SucceedInParts(
      head: Result<GovernedResult, HandleError>, tail: seq<Result<GovernedResult, HandleError>>)
    requires AllSucceed([head] + tail)
    ensures head.Success? && AllSucceed(tail)
  {
    assert ([head] + tail)[1..] == tail;
  }

  lemma {:induction false} RunObserves<S>(
      w: Wiring<S>, recorder: RecorderSettings, seed: string, s: ServiceState<S>, arrivals: seq<Arrival>)
    requires AllSucceed(Run(w, recorder, seed, s, arrivals).results)
    ensures Observed(Run(w, recorder, seed, s, arrivals).after.capture) == Observed(s.capture) + |arrivals|
    decreases |arrivals|
  {
    if arrivals != [] {
      var handled := Handle(w, recorder, seed, s, arrivals[0]);
      SucceedInParts(handled.result, Run(w, recorder, seed, handled.after, arrivals[1..]).results);
      HandleCaptures(w, recorder, seed, s, arrivals[0]);
      RunObserves(w, recorder, seed, handled.after, arrivals[1..]);
    }
  }

  lemma {:induction false} RunCaptures<S>(
      w: Wiring<S>, recorder: RecorderSettings, seed: string, s: ServiceState<S>, arrivals: seq<Arrival>, write: nat)
    requires AllSucceed(Run(w, recorder, seed, s, arrivals).results) && write == s.capture.attempts
    ensures CapturedFrom(Run(w, recorder, seed, s, arrivals).results, recorder, write)
    decreases |arrivals|
  {
    if arrivals != [] {
      var handled := Handle(w, recorder, seed, s, arrivals[0]);
      var rest := Run(w, recorder, seed, handled.after, arrivals[1..]);
      SucceedInParts(handled.result, rest.results);
      HandleCaptures(w, recorder, seed, s, arrivals[0]);
      RunCaptures(w, recorder, seed, handled.after, arrivals[1..], write + 1);
      CapturedOneMore(handled.result, rest.results, recorder, write);
    }
  }

  lemma {:induction false} EveryRequestSucceeds<S(!new)>(
      w: Wiring<S>, recorder: RecorderSettings, seed: string, s: ServiceState<S>, arrivals: seq<Arrival>)
    requires ValidRegistry(w.registry) && NamedMechanisms(w) && Accounted(seed, s)
    requires forall a <- arrivals :: ValidArrival(a)
    ensures |Run(w, recorder, seed, s, arrivals).results| == |arrivals|
    ensures AllSucceed(Run(w, recorder, seed, s, arrivals).results)
  {
    OneRecordPerRequest(w, recorder, seed, s, arrivals);
    StoredSucceed(Run(w, recorder, seed, s, arrivals).results, Run(w, recorder, seed, s, arrivals).after.records,
                  |s.records.order|);
  }

  /** Each request is observed exactly once, as a captured event or as a counted failure, and which of the two
      is the store's doing alone: the i-th capture of a run succeeds exactly when the store takes that write. */
  lemma {:induction false} EveryRequestObserved<S(!new)>(
      w: Wiring<S>, recorder: RecorderSettings, seed: string, s: ServiceState<S>, arrivals: seq<Arrival>)
    requires ValidRegistry(w.registry) && NamedMechanisms(w) && Accounted(seed, s)
    requires forall a <- arrivals :: ValidArrival(a)
    ensures |Run(w, recorder, seed, s, arrivals).results| == |arrivals|
    ensures Observed(Run(w, recorder, seed, s, arrivals).after.capture) == Observed(s.capture) + |arrivals|
    ensures CapturedFrom(Run(w, recorder, seed, s, arrivals).results, recorder, s.capture.attempts)
  {
    EveryRequestSucceeds(w, recorder, seed, s, arrivals);
    RunObserves(w, recorder, seed, s, arrivals);
    RunCaptures(w, recorder, seed, s, arrivals, s.capture.attempts);
  }

  /** A new service accounts for everything: m requests leave m records, the i-th result's record in the i-th
      place, and m observations, captured or failed. */
  lemma {:induction false} NewServiceAccounts<S(!new)>(
      w: Wiring<S>, recorder: RecorderSettings, seed: string, world: S, arrivals: seq<Arrival>)
    requires ValidRegistry(w.registry) && NamedMechanisms(w)
    requires forall a <- arrivals :: ValidArrival(a)
    ensures var run := Run(w, recorder, seed, FreshState(world), arrivals);
            && |run.results| == |run.after.records.order| == |run.after.records.byId| == |arrivals|
            && StoredFrom(run.results, run.after.records, 0)
            && Observed(run.after.capture) == |arrivals|
  {
    FreshStateAccounted(seed, world);
    OneRecordPerRequest(w, recorder, seed, FreshState(world), arrivals);
    EveryRequestObserved(w, recorder, seed, FreshState(world), arrivals);
    WellKeptSize(Run(w, recorder, seed, FreshState(world), arrivals).after.records);
  }

  // ---- What the captured events are good for ---------------------------------------------

  lemma {:induction false} HandleCapturesRelated<S>(
      w: Wiring<S>, recorder: RecorderSettings, seed: string, s: ServiceState<S>, a: Arrival)
    requires forall e <- s.capture.events :: Related(e)
    ensures forall e <- Handle(w, recorder, seed, s, a).after.capture.events :: Related(e)
  {
    DecisionsRelate(w, s.world, a.request, a.evidence);
  }

  /** Events captured by any run keep the outcome relation that decisions have. */
  lemma {:induction false} CapturedEventsRelated<S>(
      w: Wiring<S>, recorder: RecorderSettings, seed: string, s: ServiceState<S>, arrivals: seq<Arrival>)
    requires forall e <- s.capture.events :: Related(e)
    ensures forall e <- Run(w, recorder, seed, s, arrivals).after.capture.events :: Related(e)
    decreases |arrivals|
  {
    if arrivals != [] {
      HandleCapturesRelated(w, recorder, seed, s, arrivals[0]);
      CapturedEventsRelated(w, recorder, seed, Handle(w, recorder, seed, s, arrivals[0]).after, arrivals[1..]);
    }
  }

  /** An event says of a decision what its record says. */
  predicate Describes(e: TelemetryEvent, r: DecisionRecord) {
    && e.decisionId == r.decisionId && e.correlationId == r.correlationId
    && e.outcome == r.outcome && e.strategy == r.strategy && e.reasonCode == r.reasonCode
    && e.verificationMechanism == r.verificationMechanism && e.evidenceCount == r.evidenceCount
    && e.counts == r.counts && e.latencyMs == r.latencyMs
    && e.contractId == r.contractId && e.contractVersion == r.contractVersion
  }

  ghost predicate Joined(records: Records, events: seq<TelemetryEvent>) {
    forall e <- events :: e.decisionId in records.byId && Describes(e, records.byId[e.decisionId])
  }

  lemma {:induction false} JoinedOneMore(
      records: Records, events: seq<TelemetryEvent>, r: DecisionRecord, e: TelemetryEvent)
    requires Joined(records, events) && r.decisionId !in records.byId && Describes(e, r)
    ensures Joined(Add(records, r), events) && Joined(Add(records, r), events + [e])
  {
  }

  lemma {:induction false} FinalizeKeepsJoined<S>(
      w: Wiring<S>, recorder: RecorderSettings, seed: string, s: ServiceState<S>, req: TrustRequest, now: Clocks,
      j: Judged<S>)
    requires Joined(s.records, s.capture.events)
    ensures var after := Finalize(w, recorder, seed, s, req, now, j).after;
            Joined(after.records, after.capture.events)
  {
    var finalized := Finalize(w, recorder, seed, s, req, now, j);
    if finalized.result.Success? {
      var record := finalized.result.value.record;
      JoinedOneMore(s.records, s.capture.events, record, EventOf(recorder, s, now.recorder, record, j.quality));
    }
  }

  /** Telemetry never tells a different story from the records: over any run, whatever fails, every captured
      event joins to a stored record by its decision identifier and agrees with it. */
  lemma {:induction false} EventsDescribeStoredRecords<S>(
      w: Wiring<S>, recorder: RecorderSettings, seed: string, s: ServiceState<S>, arrivals: seq<Arrival>)
    requires Joined(s.records, s.capture.events)
    ensures Joined(Run(w, recorder, seed, s, arrivals).after.records,
                   Run(w, recorder, seed, s, arrivals).after.capture.events)
    decreases |arrivals|
  {
    if arrivals != [] {
      var a := arrivals[0];
      FinalizeKeepsJoined(w, recorder, seed, s, a.request, a.now, Judge(w, s.world, a.request, a.evidence));
      EventsDescribeStoredRecords(w, recorder, seed, Handle(w, recorder, seed, s, a).after, arrivals[1..]);
    }
  }

  /** Metrics over what any run captured explain every refusal with exactly one code and count no fault that is
      not a refusal. */
  lemma {:induction false} RunMetricsExplainRefusals<S>(
      w: Wiring<S>, recorder: RecorderSettings, seed: string, s: ServiceState<S>, arrivals: seq<Arrival>,
      permitted: set<Environment>, minimum: nat, observedOnly: bool, round: (nat, nat) -> int,
      roundShare: (nat, nat) -> int)
    requires s.capture.events == []
    ensures var m :=
              M.Compute(Run(w, recorder, seed, s, arrivals).after.capture.events, permitted, minimum, observedOnly,
                        round, roundShare);
            |m.reasonCodeCounts| == m.refused && m.faults <= m.refused
  {
    CapturedEventsRelated(w, recorder, seed, s, arrivals);
    M.ReasonsMatchRefusals(Run(w, recorder, seed, s, arrivals).after.capture.events, permitted, minimum, observedOnly,
                           round, roundShare);
  }
}
