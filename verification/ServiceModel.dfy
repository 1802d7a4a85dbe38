/** The governed request path as a function of the service's state: judge a request, record it, capture telemetry. */
module ServiceModel {
  import opened Collections
  import opened Domain
  import opened DecisionFunction
  import opened Evidence
  import opened DecisionRecords
  import opened Telemetry
  import opened Identifiers

  datatype GoverningContract = GoverningContract(
    contractId: string, version: string, ratified: bool, gate: EvidenceGate, provenance: ProvenanceRule)

  type Registry = map<(string, string), GoverningContract>

  datatype AuthorizationDecision = AuthorizationDecision(result: AuthorizationResult, reason: string)

  datatype TrustRequest = TrustRequest(
    correlationId: string, actor: Actor, resource: string, question: string, contractId: string,
    contractVersion: string)

  /** What a verification mechanism does with an answer: responds, or raises a failure carrying a code. */
  datatype Verification = Responded(response: VerifierResponse) | Raised(code: RawCode)

  /** Everything a service is composed from. Generator and verifier may keep state, which is the world `S`. */
  datatype Wiring<!S> = Wiring(
    registry: Registry,
    authorize: (Actor, string) -> AuthorizationDecision,
    generate: (S, string, EvidenceSet) -> (S, string),
    verify: (S, string, EvidenceSet, string) -> (S, Verification),
    verifierName: string, environment: Environment, population: Population)

  /** The externally visible work a request causes, in order. */
  datatype Effect =
    | Authorized(actor: Actor, resource: string)
    | Generated(question: string, window: EvidenceSet)
    | Verified(answer: string, window: EvidenceSet, question: string)

  datatype Judged<S> = Judged(
    world: S, contractId: string, contractVersion: string, evidence: EvidenceSet, decision: VerificationDecision,
    authorization: AuthorizationDecision, recordedAuthorization: AuthorizationResult,
    quality: Option<EvidenceQuality>, generated: bool, effects: seq<Effect>)

  function Turn(code: ReasonCode, mechanism: string): VerificationDecision {
    Refuse(code, mechanism, 0, [], NotMeasured)
  }

  function Unread(e: EvidenceSet): EvidenceSet { EvidenceSet(e.evidenceSetRef, []) }

  function RefuseWithoutContract<S>(world: S, req: TrustRequest, e: EvidenceSet, code: ReasonCode): Judged<S> {
    Judged(world, req.contractId, req.contractVersion, Unread(e), Turn(code, "contract-resolution"),
           AuthorizationDecision(DENIED, "contract unresolved: not evaluated"), DENIED, None, false, [])
  }

  /** Generation and verification over the window, once every gate has passed. */
  function Answer<S>(
      w: Wiring<S>, world: S, req: TrustRequest, window: EvidenceSet)
    : (S, VerificationDecision, seq<Effect>)
  {
    var (written, answer) := w.generate(world, req.question, window);
    var (checked, verification) := w.verify(written, answer, window, req.question);
    (checked,
     match verification
       case Raised(code) => Turn(ReasonCodeOrError(code), w.verifierName)
       case Responded(response) => Decide(response),
     [Generated(req.question, window), Verified(answer, window, req.question)])
  }

  /** The path from request to decision: resolve, authorize, check evidence, and only then generate and verify. */
  function Judge<S>(w: Wiring<S>, world: S, req: TrustRequest, e: EvidenceSet): Judged<S> {
    var key := (req.contractId, req.contractVersion);
    if key !in w.registry then RefuseWithoutContract(world, req, e, CONTRACT_VERSION_UNKNOWN)
    else if !w.registry[key].ratified then RefuseWithoutContract(world, req, e, CONTRACT_NOT_RATIFIED)
    else
      var c := w.registry[key];
      var authorization := w.authorize(req.actor, req.resource);
      var asked := [Authorized(req.actor, req.resource)];
      if !authorization.result.ALLOWED? then
        Judged(world, c.contractId, c.version, Unread(e), Turn(AUTHORIZATION_DENIED, "authorization"),
               authorization, authorization.result, None, false, asked)
      else if CheckProvenance(e.items, c.provenance).Some? then
        Judged(world, c.contractId, c.version, e, Turn(EVIDENCE_PROVENANCE_INVALID, "evidence-gate"),
               authorization, authorization.result, None, false, asked)
      else
        var gate := EvaluateGate(e, c.gate);
        if !gate.sufficient then
          Judged(world, c.contractId, c.version, e, Turn(INSUFFICIENT_EVIDENCE, "evidence-gate"),
                 authorization, authorization.result, Some(gate.quality), false, asked)
        else
          var window := TruncatedTo(e, c.gate.topK);
          var (after, decision, effects) := Answer(w, world, req, window);
          Judged(after, c.contractId, c.version, window, decision,
                 authorization, authorization.result, Some(gate.quality), true, asked + effects)
  }

  // ---- Recording -------------------------------------------------------------------------

  const DEC: string := "dec"

  /** How the recorder is wired: whether it draws identifiers from the service's own factory, the seed of the
      factory it draws from, and when its store fails. */
  datatype RecorderSettings = RecorderSettings(
    sharesIds: bool, seed: string, outage: Outage, environment: Environment, population: Population)

  /** Identifier counters are kept for the service and for the recorder; a shared factory has one set of both. */
  datatype ServiceState<S> = ServiceState(
    world: S, counters: Counters, recorderCounters: Counters, records: Records, capture: Capture)

  datatype GovernedResult = GovernedResult(
    decision: VerificationDecision, record: DecisionRecord, authorization: AuthorizationDecision,
    quality: Option<EvidenceQuality>, generationInvoked: bool, telemetryCaptured: bool)

  datatype HandleError = RecordRejected | DecisionExists

  datatype Handled<S> = Handled(after: ServiceState<S>, result: Result<GovernedResult, HandleError>,
                                effects: seq<Effect>)

  /** What the service's clock and the recorder's clock read. */
  datatype Clocks = Clocks(service: int, recorder: int)

  datatype Arrival = Arrival(request: TrustRequest, evidence: EvidenceSet, now: Clocks)

  function RecordFor<S>(w: Wiring<S>, decisionId: string, now: int, req: TrustRequest, j: Judged<S>): DecisionRecord {
    DecisionRecord(decisionId, now, j.contractId, j.contractVersion, req.correlationId, req.actor.actorId, req.resource,
                   j.evidence.evidenceSetRef, j.recordedAuthorization, j.decision.outcome, j.decision.strategy,
                   j.decision.reasonCode, j.decision.mechanism, |j.evidence.items|, j.decision.counts,
                   j.decision.latencyMs, w.population, w.environment)
  }

  /** The recorder's counters as it finds them, once the service has numbered its record. */
  function RecorderCounters<S>(recorder: RecorderSettings, s: ServiceState<S>): Counters {
    if recorder.sharesIds then Issue(s.counters, DEC) else s.recorderCounters
  }

  /** The event the recorder makes of a record, under the next identifier of its factory. */
  function EventOf<S>(
      recorder: RecorderSettings, s: ServiceState<S>, now: int, record: DecisionRecord,
      quality: Option<EvidenceQuality>)
    : TelemetryEvent
  {
    var number := Issued(Issue(RecorderCounters(recorder, s), EVT), EVT);
    EventFor(Identifier(EVT, recorder.seed, number), now, record, quality, recorder.environment, recorder.population)
  }

  /** Records a decision: numbered, checked, stored, and only then offered to telemetry. */
  function Finalize<S>(
      w: Wiring<S>, recorder: RecorderSettings, seed: string, s: ServiceState<S>, req: TrustRequest, now: Clocks,
      j: Judged<S>)
    : Handled<S>
  {
    var issued := Issue(s.counters, DEC);
    var record := RecordFor(w, Identifier(DEC, seed, Issued(issued, DEC)), now.service, req, j);
    var failed := ServiceState(j.world, issued, RecorderCounters(recorder, s), s.records, s.capture);
    if !ValidRecord(record) then Handled(failed, Failure(RecordRejected), j.effects)
    else if record.decisionId in s.records.byId then Handled(failed, Failure(DecisionExists), j.effects)
    else
      var event := EventOf(recorder, s, now.recorder, record, j.quality);
      var captured := Issue(RecorderCounters(recorder, s), EVT);
      Handled(ServiceState(j.world, if recorder.sharesIds then captured else issued, captured,
                           Add(s.records, record), CaptureEvent(s.capture, recorder.outage, event)),
              Success(GovernedResult(j.decision, record, j.authorization, j.quality, j.generated,
                                     Captures(s.capture, recorder.outage, event))),
              j.effects)
  }

  function Handle<S>(
      w: Wiring<S>, recorder: RecorderSettings, seed: string, s: ServiceState<S>, a: Arrival)
    : Handled<S>
  {
    Finalize(w, recorder, seed, s, a.request, a.now, Judge(w, s.world, a.request, a.evidence))
  }

  datatype ServiceRun<S> = ServiceRun(after: ServiceState<S>, results: seq<Result<GovernedResult, HandleError>>)

  function Run<S>(
      w: Wiring<S>, recorder: RecorderSettings, seed: string, s: ServiceState<S>, arrivals: seq<Arrival>): ServiceRun<S>
    decreases |arrivals|
  {
    if arrivals == [] then ServiceRun(s, [])
    else
      var handled := Handle(w, recorder, seed, s, arrivals[0]);
      var rest := Run(w, recorder, seed, handled.after, arrivals[1..]);
      ServiceRun(rest.after, [handled.result] + rest.results)
  }
}
