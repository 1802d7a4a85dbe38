/** The composition root as an object over its store, recorder, clock and identifier factory. */
module TrustServices {
  import opened Collections
  import opened Domain
  import opened DecisionFunction
  import opened Evidence
  import opened DecisionRecords
  import opened Telemetry
  import opened Identifiers
  import opened ServiceModel

  class TrustService<S> {
    const wiring: Wiring<S>
    const store: InMemoryDecisionStore
    const recorder: TelemetryRecorder
    const clock: FixedClock
    const ids: SequentialIdFactory
    var world: S

    ghost function State(): ServiceState<S>
      reads this, store, recorder, recorder.store, ids, recorder.ids
    {
      ServiceState(world, ids.counters, recorder.ids.counters, store.records, recorder.Captured())
    }

    /** The recorder may be wired to the service's own identifier factory and clock, or to others. */
    ghost function Settings(): RecorderSettings {
      RecorderSettings(recorder.ids == ids, recorder.ids.seed, recorder.store.outage,
                       recorder.environment, recorder.population)
    }

    ghost function Now(): Clocks
      reads clock, recorder.clock
    {
      Clocks(clock.now, recorder.clock.now)
    }

    constructor (
        wiring: Wiring<S>, world: S, store: InMemoryDecisionStore, recorder: TelemetryRecorder, clock: FixedClock,
        ids: SequentialIdFactory)
      ensures this.wiring == wiring && this.world == world
      ensures this.store == store && this.recorder == recorder && this.clock == clock && this.ids == ids
    {
      this.wiring, this.world, this.store, this.recorder, this.clock, this.ids :=
        wiring, world, store, recorder, clock, ids;
    }

    /** Judges a request, then records what was decided. */
    method HandleRequest(request: TrustRequest, evidence: EvidenceSet)
      returns (result: Result<GovernedResult, HandleError>, effects: seq<Effect>)
      modifies this, store, recorder, recorder.store, ids, recorder.ids
      ensures Handled(State(), result, effects)
           == Handle(wiring, Settings(), ids.seed, old(State()), Arrival(request, evidence, Now()))
    {
      effects := [];
      var j := JudgeRequest(request, evidence);
      effects := j.effects;
      result := Record(request, j);
    }

    /** Decides the request, with an exit before each piece of work a failed check guards. */
    method JudgeRequest(request: TrustRequest, evidence: EvidenceSet) returns (j: Judged<S>)
      modifies this
      ensures j == Judge(wiring, old(world), request, evidence)
      ensures world == j.world
    {
      var key := (request.contractId, request.contractVersion);
      if key !in wiring.registry {
        return RefuseWithoutContract(world, request, evidence, CONTRACT_VERSION_UNKNOWN);
      }
      var c := wiring.registry[key];
      if !c.ratified {
        return RefuseWithoutContract(world, request, evidence, CONTRACT_NOT_RATIFIED);
      }
      var authorization := wiring.authorize(request.actor, request.resource);
      var effects := [Authorized(request.actor, request.resource)];
      if !authorization.result.ALLOWED? {
        return Judged(world, c.contractId, c.version, Unread(evidence), Turn(AUTHORIZATION_DENIED, "authorization"),
                      authorization, authorization.result, None, false, effects);
      }
      if CheckProvenance(evidence.items, c.provenance).Some? {
        return Judged(world, c.contractId, c.version, evidence, Turn(EVIDENCE_PROVENANCE_INVALID, "evidence-gate"),
                      authorization, authorization.result, None, false, effects);
      }
      var gate := EvaluateGate(evidence, c.gate);
      if !gate.sufficient {
        return Judged(world, c.contractId, c.version, evidence, Turn(INSUFFICIENT_EVIDENCE, "evidence-gate"),
                      authorization, authorization.result, Some(gate.quality), false, effects);
      }
      var window := TruncatedTo(evidence, c.gate.topK);
      var (written, answer) := wiring.generate(world, request.question, window);
      world := written;
      effects := effects + [Generated(request.question, window)];
      var (checked, verification) := wiring.verify(world, answer, window, request.question);
      world := checked;
      effects := effects + [Verified(answer, window, request.question)];
      var decision := match verification
        case Raised(code) => Turn(ReasonCodeOrError(code), wiring.verifierName)
        case Responded(response) => Decide(response);
      j := Judged(world, c.contractId, c.version, window, decision, authorization, authorization.result,
                  Some(gate.quality), true, effects);
    }

    /** Stores the record, then attempts capture. */
    method Record(request: TrustRequest, j: Judged<S>) returns (result: Result<GovernedResult, HandleError>)
      requires world == j.world
      modifies store, recorder, recorder.store, ids, recorder.ids
      ensures Handled(State(), result, j.effects)
           == Finalize(wiring, Settings(), ids.seed, old(State()), request, Now(), j)
    {
      var decisionId := ids.NewId(DEC);
      var now := clock.Now();
      var record := RecordFor(wiring, decisionId, now, request, j);
      if !ValidRecord(record) {
        return Failure(RecordRejected);
      }
      var stored := store.Append(record);
      if !stored {
        return Failure(DecisionExists);
      }
      var event := recorder.Record(record, j.quality);
      result := Success(GovernedResult(j.decision, record, j.authorization, j.quality, j.generated, event.Some?));
    }
  }
}
