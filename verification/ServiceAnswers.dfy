/** What every request is answered: the whole decision, for whatever the verifier responds or raises. */
module ServiceAnswers {
  import opened Collections
  import opened Domain
  import opened DecisionFunction
  import opened DecisionAnswers
  import opened Evidence
  import opened DecisionRecords
  import opened Identifiers
  import opened ServiceModel
  import opened ServiceRuns

  /** A refusal that examined nothing. */
  predicate Refuses(d: VerificationDecision, code: ReasonCode, mechanism: string) {
    && d.outcome == REFUSED && d.strategy == None && d.reasonCode == Some(code)
    && d.claims == [] && d.counts == NotMeasured && d.mechanism == mechanism && d.latencyMs == 0
  }

  /** Which part of the path turned a request away. */
  function FirstGate<S>(w: Wiring<S>, req: TrustRequest): string {
    if !Governed(w, req) then "contract-resolution"
    else if !w.authorize(req.actor, req.resource).result.ALLOWED? then "authorization"
    else "evidence-gate"
  }

  /** What a decision has to say of a verification: of a response all that the decision function decides, and of a
      failure its own code if that is a controlled one and the generic fault otherwise. */
  ghost predicate Answered(v: Verification, verifierName: string, d: VerificationDecision) {
    match v
    case Responded(response) => Decides(response, d)
    case Raised(Controlled(code)) => Refuses(d, code, verifierName)
    case Raised(Uncontrolled(_)) => Refuses(d, VERIFIER_ERROR, verifierName)
  }

  lemma {:induction false} AnswerAnswers<S>(w: Wiring<S>, world: S, req: TrustRequest, window: EvidenceSet)
    ensures Answered(VerificationOf(w, world, req, window), w.verifierName, Answer(w, world, req, window).1)
    ensures var (written, answer) := w.generate(world, req.question, window);
            Answer(w, world, req, window).0 == w.verify(written, answer, window, req.question).0
  {
    var v := VerificationOf(w, world, req, window);
    if v.Responded? { DecideDecides(v.response); }
  }

  /** Every request is answered for what happened to it: a permitted one by what its verification says, any other by
      the refusal of the first gate it failed. */
  lemma {:induction false} AnsweredExactly<S>(w: Wiring<S>, world: S, req: TrustRequest, e: EvidenceSet)
    requires ValidRegistry(w.registry)
    ensures var d := Judge(w, world, req, e).decision;
            if Permits(w, req, e) then Answered(VerificationOf(w, world, req, WindowFor(w, req, e)), w.verifierName, d)
            else Refuses(d, FirstFailure(w, req, e), FirstGate(w, req))
  {
    GenerationExactlyWhenPermitted(w, world, req, e);
    if Permits(w, req, e) {
      AnswerAnswers(w, world, req, WindowFor(w, req, e));
      assert Judge(w, world, req, e).decision == Answer(w, world, req, WindowFor(w, req, e)).1;
    }
  }

  /** A verification has one answer. */
  lemma {:induction false} AnswerUnique(
      v: Verification, verifierName: string, d: VerificationDecision, e: VerificationDecision)
    requires Answered(v, verifierName, d) && Answered(v, verifierName, e)
    ensures d == e
  {
    if v.Responded? {
      DecisionUnique(v.response, d);
      DecisionUnique(v.response, e);
    }
  }

  /** The verifier's state moves by its one verification, and the authorization reported is the one that was given:
      a denial where no contract governs. */
  lemma {:induction false} JudgedOnce<S>(w: Wiring<S>, world: S, req: TrustRequest, e: EvidenceSet)
    requires ValidRegistry(w.registry)
    ensures var j := Judge(w, world, req, e);
            && (Permits(w, req, e) ==>
                  var (written, answer) := w.generate(world, req.question, WindowFor(w, req, e));
                  j.world == w.verify(written, answer, WindowFor(w, req, e), req.question).0)
            && (if Governed(w, req) then j.authorization == w.authorize(req.actor, req.resource)
                else j.authorization.result.DENIED?)
            && j.recordedAuthorization == j.authorization.result
  {
    GenerationExactlyWhenPermitted(w, world, req, e);
    if Permits(w, req, e) {
      AnswerAnswers(w, world, req, WindowFor(w, req, e));
      assert Judge(w, world, req, e).world == Answer(w, world, req, WindowFor(w, req, e)).0;
    }
  }

  /** The answer a caller is handed, and the record that is kept, are those of the request. */
  lemma {:induction false} HandedOver<S>(
      w: Wiring<S>, recorder: RecorderSettings, seed: string, s: ServiceState<S>, a: Arrival)
    requires ValidRegistry(w.registry) && Handle(w, recorder, seed, s, a).result.Success?
    ensures var result, j := Handle(w, recorder, seed, s, a).result.value, Judge(w, s.world, a.request, a.evidence);
            && result.decision == j.decision && result.authorization == j.authorization
            && States(result.record, j.decision)
            && result.record.environment == w.environment && result.record.population == w.population
            && result.record.authorizationResult == j.authorization.result
  {
    JudgedOnce(w, s.world, a.request, a.evidence);
  }

  /** What a record needs of a request and its decision to be kept: identity, and a mechanism's name. */
  predicate Recordable(req: TrustRequest, e: EvidenceSet, mechanism: string) {
    && req.correlationId != "" && req.actor.actorId != "" && req.resource != "" && req.contractId != ""
    && VersionText(req.contractVersion) && e.evidenceSetRef != "" && mechanism != ""
  }

  lemma {:induction false} RecordValidExactly<S>(
      w: Wiring<S>, world: S, id: string, now: int, req: TrustRequest, e: EvidenceSet)
    requires ValidRegistry(w.registry) && id != ""
    ensures var j := Judge(w, world, req, e);
            ValidRecord(RecordFor(w, id, now, req, j)) <==> Recordable(req, e, j.decision.mechanism)
  {
    DecisionsRelate(w, world, req, e);
    DeniedReadsNothing(w, world, req, e);
    JudgedUnderRequest(w, world, req, e);
    KeptIff(w, id, now, req, e, Judge(w, world, req, e));
  }

  lemma {:induction false} KeptIff<S>(
      w: Wiring<S>, id: string, now: int, req: TrustRequest, e: EvidenceSet, j: Judged<S>)
    requires id != "" && j.evidence.evidenceSetRef == e.evidenceSetRef
    requires (j.contractId, j.contractVersion) == (req.contractId, req.contractVersion)
    requires OutcomeRelation(j.decision.outcome, j.decision.strategy, j.decision.reasonCode)
    requires j.recordedAuthorization.DENIED? ==>
               j.decision.outcome.REFUSED? && j.evidence.items == [] && j.decision.counts.NotMeasured?
    ensures ValidRecord(RecordFor(w, id, now, req, j)) <==> Recordable(req, e, j.decision.mechanism)
  {
  }

  lemma {:induction false} FinalizeFailsIff<S>(
      w: Wiring<S>, recorder: RecorderSettings, seed: string, s: ServiceState<S>, req: TrustRequest, now: Clocks,
      j: Judged<S>)
    ensures var finalized, id := Finalize(w, recorder, seed, s, req, now, j), NextDecisionId(seed, s);
            var valid := ValidRecord(RecordFor(w, id, now.service, req, j));
            && (finalized.result == Failure(RecordRejected) <==> !valid)
            && (finalized.result == Failure(DecisionExists) <==> valid && id in s.records.byId)
            && (finalized.result.Failure? ==>
                  finalized.after.records == s.records && finalized.after.capture == s.capture)
            && Issued(finalized.after.counters, DEC) == Issued(s.counters, DEC) + 1
            && finalized.after.world == j.world && finalized.effects == j.effects
  {
    IssueSeparates(s.counters);
  }

  /** When a request fails, why, and what it leaves behind: no record and no telemetry, though one decision number is
      used up and whatever was generated and verified has been. */
  lemma {:induction false} HandleFailsIff<S>(
      w: Wiring<S>, recorder: RecorderSettings, seed: string, s: ServiceState<S>, a: Arrival)
    requires ValidRegistry(w.registry)
    ensures var handled, j := Handle(w, recorder, seed, s, a), Judge(w, s.world, a.request, a.evidence);
            var recordable := Recordable(a.request, a.evidence, j.decision.mechanism);
            && (handled.result == Failure(RecordRejected) <==> !recordable)
            && (handled.result == Failure(DecisionExists) <==> recordable && NextDecisionId(seed, s) in s.records.byId)
            && (handled.result.Failure? ==> handled.after.records == s.records && handled.after.capture == s.capture)
            && Issued(handled.after.counters, DEC) == Issued(s.counters, DEC) + 1
            && handled.after.world == j.world && handled.effects == j.effects
  {
    IdentifiersDistinct(DEC, seed, Issued(s.counters, DEC) + 1, 0);
    RecordValidExactly(w, s.world, NextDecisionId(seed, s), a.now.service, a.request, a.evidence);
    FinalizeFailsIff(w, recorder, seed, s, a.request, a.now, Judge(w, s.world, a.request, a.evidence));
  }
}
