/** Telemetry events, a store that may fail, and the recorder that fails open. */
module Telemetry {
  import opened Collections
  import opened Domain
  import opened DecisionFunction
  import opened DecisionRecords
  import opened Identifiers

  datatype TelemetryEvent = TelemetryEvent(
    eventId: string, capturedAt: int, decisionId: string, correlationId: string, outcome: DecisionOutcome,
    strategy: Option<ResponseStrategy>, reasonCode: Option<ReasonCode>, verificationMechanism: string,
    evidenceCount: nat, evidenceQuality: Option<EvidenceQuality>, counts: ClaimCounts, latencyMs: nat,
    contractId: string, contractVersion: string, environment: Environment, population: Population)

  predicate ValidEvent(e: TelemetryEvent) {
    && e.eventId != "" && e.decisionId != "" && e.correlationId != "" && e.verificationMechanism != ""
    && e.contractId != "" && VersionText(e.contractVersion)
    && (if e.outcome.GROUNDED? then e.strategy.Some? else e.strategy.None? && e.reasonCode.Some?)
  }

  /** The outcome relation in full, which event validation leaves open on grounded events. */
  predicate Related(e: TelemetryEvent) { OutcomeRelation(e.outcome, e.strategy, e.reasonCode) }

  /** The codes that say the checker is unwell rather than that the evidence fell short. */
  predicate IsFault(e: TelemetryEvent) {
    e.reasonCode.Some? &&
    (e.reasonCode.value.VERIFIER_ERROR? || e.reasonCode.value.VERIFIER_TIMEOUT? ||
     e.reasonCode.value.VERIFIER_OUTPUT_TRUNCATED? || e.reasonCode.value.MALFORMED_VERIFIER_OUTPUT? ||
     e.reasonCode.value.NO_VERIFIER_AVAILABLE?)
  }

  /** When a store fails: which of its writes, counted from the first, raise. */
  type Outage = nat -> bool

  datatype Capture = Capture(attempts: nat, events: seq<TelemetryEvent>, failures: nat)

  const EVT: string := "evt"

  function EventFor(
      eventId: string, now: int, r: DecisionRecord, quality: Option<EvidenceQuality>,
      environment: Environment, population: Population): TelemetryEvent {
    TelemetryEvent(eventId, now, r.decisionId, r.correlationId, r.outcome, r.strategy, r.reasonCode,
                   r.verificationMechanism, r.evidenceCount, quality, r.counts, r.latencyMs,
                   r.contractId, r.contractVersion, environment, population)
  }

  /** A capture attempt: an invalid event never reaches the store; a failed write is only counted. */
  function CaptureEvent(t: Capture, outage: Outage, e: TelemetryEvent): Capture {
    if !ValidEvent(e) then t.(failures := t.failures + 1)
    else if outage(t.attempts) then t.(attempts := t.attempts + 1, failures := t.failures + 1)
    else t.(attempts := t.attempts + 1, events := t.events + [e])
  }

  predicate Captures(t: Capture, outage: Outage, e: TelemetryEvent) { ValidEvent(e) && !outage(t.attempts) }

  /** Append-only event storage whose writes fail as its outage says: never, always, or in any pattern. */
  class TelemetryStore {
    const outage: Outage
    var attempts: nat
    var events: seq<TelemetryEvent>

    constructor (outage: Outage)
      ensures this.outage == outage && attempts == 0 && events == []
    {
      this.outage := outage;
      attempts, events := 0, [];
    }

    method Append(e: TelemetryEvent) returns (written: bool)
      modifies this
      ensures written == !outage(old(attempts))
      ensures attempts == old(attempts) + 1
      ensures events == if written then old(events) + [e] else old(events)
    {
      written := !outage(attempts);
      attempts := attempts + 1;
      if written {
        events := events + [e];
      }
    }
  }

  class TelemetryRecorder {
    const store: TelemetryStore
    const clock: FixedClock
    const ids: SequentialIdFactory
    const environment: Environment
    const population: Population
    var failures: nat

    constructor (
        store: TelemetryStore, clock: FixedClock, ids: SequentialIdFactory, environment: Environment,
        population: Population)
      ensures this.store == store && this.clock == clock && this.ids == ids
      ensures this.environment == environment && this.population == population && failures == 0
    {
      this.store, this.clock, this.ids := store, clock, ids;
      this.environment, this.population := environment, population;
      failures := 0;
    }

    ghost function Captured(): Capture
      reads this, store
    {
      Capture(store.attempts, store.events, failures)
    }

    /** Captures one decision. Whatever goes wrong is counted and goes no further. */
    method Record(decision: DecisionRecord, quality: Option<EvidenceQuality>) returns (event: Option<TelemetryEvent>)
      modifies this, store, ids
      ensures ids.counters == Issue(old(ids.counters), EVT)
      ensures var e :=
                EventFor(Identifier(EVT, ids.seed, Issued(ids.counters, EVT)), clock.now, decision, quality,
                         environment, population);
              && Captured() == CaptureEvent(old(Captured()), store.outage, e)
              && event == if Captures(old(Captured()), store.outage, e) then Some(e) else None
    {
      var id := ids.NewId(EVT);
      var now := clock.Now();
      var e := EventFor(id, now, decision, quality, environment, population);
      var written := false;
      if ValidEvent(e) {
        written := store.Append(e);
      }
      if written {
        event := Some(e);
      } else {
        failures := failures + 1;
        event := None;
      }
    }
  }
}
