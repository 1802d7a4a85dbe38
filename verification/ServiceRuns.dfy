/** What the governed path guarantees for every request and over every run. */
module ServiceRuns {
  import opened Collections
  import opened Domain
  import opened DecisionFunction
  import opened Evidence
  import opened DecisionRecords
  import opened Telemetry
  import opened Identifiers
  import opened ServiceModel

  // ---- When generation runs, and when an answer is grounded ------------------------------

  function KeyOf(req: TrustRequest): (string, string) { (req.contractId, req.contractVersion) }

  predicate Governed<S>(w: Wiring<S>, req: TrustRequest) {
    KeyOf(req) in w.registry && w.registry[KeyOf(req)].ratified
  }

  /** Enough items survive the window, and the best retrieved item clears the bar. */
  predicate Sufficient(e: EvidenceSet, gate: EvidenceGate) {
    && gate.minChunksRequired <= (if |e.items| < gate.topK then |e.items| else gate.topK)
    && exists item <- e.items :: gate.minSimilarityScore <= item.relevanceScore
  }

  /** Everything that must hold before an answer is generated. */
  predicate Permits<S>(w: Wiring<S>, req: TrustRequest, e: EvidenceSet) {
    && Governed(w, req)
    && w.authorize(req.actor, req.resource).result.ALLOWED?
    && Permitted(e.items, w.registry[KeyOf(req)].provenance)
    && Sufficient(e, w.registry[KeyOf(req)].gate)
  }

  /** What the contract model guarantees of registered contracts: each is filed under its own key, with a valid gate. */
  ghost predicate ValidRegistry(registry: Registry) {
    forall key <- registry ::
      && key == (registry[key].contractId, registry[key].version)
      && ValidGate(registry[key].gate)
  }

  function WindowFor<S>(w: Wiring<S>, req: TrustRequest, e: EvidenceSet): EvidenceSet
    requires Governed(w, req)
  {
    TruncatedTo(e, w.registry[KeyOf(req)].gate.topK)
  }

  /** The code of the first check a request fails before generation. */
  function FirstFailure<S>(w: Wiring<S>, req: TrustRequest, e: EvidenceSet): ReasonCode {
    if KeyOf(req) !in w.registry then CONTRACT_VERSION_UNKNOWN
    else if !w.registry[KeyOf(req)].ratified then CONTRACT_NOT_RATIFIED
    else if !w.authorize(req.actor, req.resource).result.ALLOWED? then AUTHORIZATION_DENIED
    else if !Permitted(e.items, w.registry[KeyOf(req)].provenance) then EVIDENCE_PROVENANCE_INVALID
    else INSUFFICIENT_EVIDENCE
  }

  /** The generator runs exactly when everything before it permits; it is then asked once, over the ranked
      window, and the verifier checks that answer over that same window. Otherwise neither runs, the world is
      untouched, and the refusal names the first check that failed. */
  lemma {:induction false} GenerationExactlyWhenPermitted<S>(w: Wiring<S>, world: S, req: TrustRequest, e: EvidenceSet)
    requires ValidRegistry(w.registry)
    ensures var j := Judge(w, world, req, e);
            && (j.generated <==> Permits(w, req, e))
            && (j.generated ==>
                  var window := WindowFor(w, req, e);
                  var answer := w.generate(world, req.question, window).1;
                  && j.effects
                       == [Authorized(req.actor, req.resource), Generated(req.question, window),
                           Verified(answer, window, req.question)]
                  && j.evidence == window
                  && Permitted(window.items, w.registry[KeyOf(req)].provenance))
            && (!j.generated ==>
                  && j.world == world
                  && j.effects == (if Governed(w, req) then [Authorized(req.actor, req.resource)] else [])
                  && j.decision.outcome.REFUSED? && j.decision.reasonCode == Some(FirstFailure(w, req, e)))
  {
    if Governed(w, req) {
      var c := w.registry[KeyOf(req)];
      ProvenanceMeaning(e.items, c.provenance);
      GateMeaning(e, c.gate);
      if Permitted(e.items, c.provenance) { WindowPermitted(e, c.provenance, c.gate.topK); }
    }
  }

  /** How the verifier answers once the gates have passed. */
  function VerificationOf<S>(w: Wiring<S>, world: S, req: TrustRequest, window: EvidenceSet): Verification {
    var (written, answer) := w.generate(world, req.question, window);
    w.verify(written, answer, window, req.question).1
  }

  /** An answer is grounded exactly when the request was permitted and the verifier's response on the very
      window the gate measured warrants it. */
  lemma {:induction false} GroundedExactly<S>(w: Wiring<S>, world: S, req: TrustRequest, e: EvidenceSet)
    requires ValidRegistry(w.registry)
    ensures Judge(w, world, req, e).decision.outcome.GROUNDED? <==>
              && Permits(w, req, e)
              && VerificationOf(w, world, req, WindowFor(w, req, e)).Responded?
              && Warranted(VerificationOf(w, world, req, WindowFor(w, req, e)).response)
  {
    GenerationExactlyWhenPermitted(w, world, req, e);
    if Permits(w, req, e) {
      var v := VerificationOf(w, world, req, WindowFor(w, req, e));
      if v.Responded? { GroundedIffWarranted(v.response); }
      assert Judge(w, world, req, e).decision == Answer(w, world, req, WindowFor(w, req, e)).1;
    }
  }

  // ---- Every record is valid -------------------------------------------------------------

  /** What the request model enforces. */
  predicate ValidRequest(req: TrustRequest) {
    && req.correlationId != "" && req.actor.actorId != "" && req.resource != ""
    && req.contractId != "" && VersionText(req.contractVersion)
  }

  predicate ValidArrival(a: Arrival) { ValidRequest(a.request) && a.evidence.evidenceSetRef != "" }

  /** Mechanisms carry names, as the verifier and response models require. */
  ghost predicate NamedMechanisms<S(!new)>(w: Wiring<S>) {
    && w.verifierName != ""
    && forall world: S, answer: string, e: EvidenceSet, question: string ::
         var v := w.verify(world, answer, e, question).1;
         v.Responded? ==> v.response.mechanism != ""
  }

  lemma {:induction false} DecisionsRelate<S>(w: Wiring<S>, world: S, req: TrustRequest, e: EvidenceSet)
    ensures var d := Judge(w, world, req, e).decision;
            OutcomeRelation(d.outcome, d.strategy, d.reasonCode)
  {
  }

  lemma {:induction false} MechanismsNamed<S(!new)>(w: Wiring<S>, world: S, req: TrustRequest, e: EvidenceSet)
    requires NamedMechanisms(w)
    ensures Judge(w, world, req, e).decision.mechanism != ""
  {
    if Governed(w, req) {
      var window := WindowFor(w, req, e);
      var (written, answer) := w.generate(world, req.question, window);
      assert w.verify(written, answer, window, req.question).1 == VerificationOf(w, world, req, window);
    }
  }

  lemma {:induction false} DeniedReadsNothing<S>(w: Wiring<S>, world: S, req: TrustRequest, e: EvidenceSet)
    ensures var j := Judge(w, world, req, e);
            && (j.recordedAuthorization.DENIED? <==>
                !Governed(w, req) || w.authorize(req.actor, req.resource).result.DENIED?)
            && (j.recordedAuthorization.DENIED? ==>
                  j.decision.outcome.REFUSED? && j.evidence.items == [] && j.decision.counts.NotMeasured?)
  {
  }

  lemma {:induction false} JudgedUnderRequest<S>(w: Wiring<S>, world: S, req: TrustRequest, e: EvidenceSet)
    requires ValidRegistry(w.registry)
    ensures var j := Judge(w, world, req, e);
            (j.contractId, j.contractVersion, j.evidence.evidenceSetRef)
              == (req.contractId, req.contractVersion, e.evidenceSetRef)
  {
  }

  lemma {:induction false} RecordValidIff<S>(w: Wiring<S>, id: string, now: int, req: TrustRequest, j: Judged<S>)
    requires ValidRequest(req) && id != "" && j.decision.mechanism != "" && j.evidence.evidenceSetRef != ""
    requires (j.contractId, j.contractVersion) == (req.contractId, req.contractVersion)
    requires OutcomeRelation(j.decision.outcome, j.decision.strategy, j.decision.reasonCode)
    ensures ValidRecord(RecordFor(w, id, now, req, j)) <==>
              (j.recordedAuthorization.DENIED? ==>
                 j.decision.outcome.REFUSED? && j.evidence.items == [] && j.decision.counts.NotMeasured?)
  {
  }

  /** The record's validators never fire, on any exit; a denied request's record shows nothing read and nothing
      measured, and only a request with no contract or no authorization is recorded as denied. */
  lemma {:induction false} RecordsAreValid<S(!new)>(w: Wiring<S>, world: S, id: string, a: Arrival)
    requires ValidRegistry(w.registry) && NamedMechanisms(w) && ValidArrival(a) && id != ""
    ensures var record := RecordFor(w, id, a.now.service, a.request, Judge(w, world, a.request, a.evidence));
            && ValidRecord(record)
            && (record.authorizationResult.DENIED? <==>
                  !Governed(w, a.request) || w.authorize(a.request.actor, a.request.resource).result.DENIED?)
  {
    DecisionsRelate(w, world, a.request, a.evidence);
    MechanismsNamed(w, world, a.request, a.evidence);
    DeniedReadsNothing(w, world, a.request, a.evidence);
    JudgedUnderRequest(w, world, a.request, a.evidence);
    RecordValidIff(w, id, a.now.service, a.request, Judge(w, world, a.request, a.evidence));
  }

  /** A record can be traced back to its request: it names the contract and version that were asked for, on
      every exit, the correlation, the subject and the resource, and it counts exactly the evidence that was
      read: none before authorization, all that was retrieved at a gate, the window once an answer was generated. */
  lemma {:induction false} RecordTracesRequest<S>(w: Wiring<S>, world: S, id: string, a: Arrival)
    requires ValidRegistry(w.registry)
    ensures var req, e := a.request, a.evidence;
            var record := RecordFor(w, id, a.now.service, req, Judge(w, world, req, e));
            && record.decisionId == id && record.recordedAt == a.now.service
            && (record.contractId, record.contractVersion) == (req.contractId, req.contractVersion)
            && record.correlationId == req.correlationId && record.subjectId == req.actor.actorId
            && record.requestRef == req.resource && record.evidenceSetRef == e.evidenceSetRef
            && record.evidenceCount ==
                 (if !Governed(w, req) || !w.authorize(req.actor, req.resource).result.ALLOWED? then 0
                  else if Permits(w, req, e) then |WindowFor(w, req, e).items|
                  else |e.items|)
  {
    GenerationExactlyWhenPermitted(w, world, a.request, a.evidence);
  }

  /** The evidence quality a request is told of: none unless the sufficiency gate was reached. */
  ghost predicate QualityReported<S>(
      w: Wiring<S>, req: TrustRequest, e: EvidenceSet, quality: Option<EvidenceQuality>)
  {
    if Governed(w, req) && w.authorize(req.actor, req.resource).result.ALLOWED?
      && Permitted(e.items, w.registry[KeyOf(req)].provenance)
    then quality.Some? && (quality.value.SUFFICIENT? <==> Permits(w, req, e))
      && (quality.value.EMPTY? <==> e.items == [])
    else quality.None?
  }

  lemma {:induction false} QualityHonest<S>(w: Wiring<S>, world: S, req: TrustRequest, e: EvidenceSet)
    requires ValidRegistry(w.registry)
    ensures QualityReported(w, req, e, Judge(w, world, req, e).quality)
  {
    if Governed(w, req) {
      ProvenanceMeaning(e.items, w.registry[KeyOf(req)].provenance);
      GateMeaning(e, w.registry[KeyOf(req)].gate);
    }
  }

  /** A record states the decision it is about. */
  predicate States(r: DecisionRecord, d: VerificationDecision) {
    && r.outcome == d.outcome && r.strategy == d.strategy && r.reasonCode == d.reasonCode
    && r.counts == d.counts && r.verificationMechanism == d.mechanism && r.latencyMs == d.latencyMs
  }

  /** What a caller is told is what happened: the stored record states the returned decision, generation is
      reported exactly when the request was permitted, and a grounded answer is never reported without it. */
  lemma {:induction false} ResultReportsWhatHappened<S>(
      w: Wiring<S>, recorder: RecorderSettings, seed: string, s: ServiceState<S>, a: Arrival)
    requires ValidRegistry(w.registry) && Handle(w, recorder, seed, s, a).result.Success?
    ensures var result := Handle(w, recorder, seed, s, a).result.value;
            && States(result.record, result.decision)
            && (result.generationInvoked <==> Permits(w, a.request, a.evidence))
            && (result.decision.outcome.GROUNDED? ==> result.generationInvoked)
            && QualityReported(w, a.request, a.evidence, result.quality)
  {
    GenerationExactlyWhenPermitted(w, s.world, a.request, a.evidence);
    QualityHonest(w, s.world, a.request, a.evidence);
  }

  lemma EventsAreValid(
      id: string, now: int, r: DecisionRecord, quality: Option<EvidenceQuality>, environment: Environment,
      population: Population)
    requires ValidRecord(r) && id != ""
    ensures ValidEvent(EventFor(id, now, r, quality, environment, population))
  {
  }

  // ---- One record per request ------------------------------------------------------------

  /** Every stored decision carries an identifier this factory has already issued. */
  ghost predicate Accounted<S>(seed: string, s: ServiceState<S>) {
    && WellKept(s.records)
    && forall id <- s.records.byId :: IssuedBefore(DEC, seed, Issued(s.counters, DEC), id)
  }

  function FreshState<S>(world: S): ServiceState<S> {
    ServiceState(world, map[], map[], Records(map[], []), Capture(0, [], 0))
  }

  lemma FreshStateAccounted<S>(seed: string, world: S)
    ensures Accounted(seed, FreshState(world))
  {
  }

  function NextDecisionId<S>(seed: string, s: ServiceState<S>): string {
    Identifier(DEC, seed, Issued(s.counters, DEC) + 1)
  }

  lemma {:induction false} FinalizeFailsOnlyOnReuse<S>(
      w: Wiring<S>, recorder: RecorderSettings, seed: string, s: ServiceState<S>, req: TrustRequest, now: Clocks,
      j: Judged<S>)
    requires ValidRecord(RecordFor(w, NextDecisionId(seed, s), now.service, req, j))
    ensures var result := Finalize(w, recorder, seed, s, req, now, j).result;
            (result.Failure? <==> NextDecisionId(seed, s) in s.records.byId) && result != Failure(RecordRejected)
  {
  }

  /** With valid inputs, handling a request fails exactly when its next identifier is already stored. */
  lemma {:induction false} HandleFailsOnlyOnReuse<S(!new)>(
      w: Wiring<S>, recorder: RecorderSettings, seed: string, s: ServiceState<S>, a: Arrival)
    requires ValidRegistry(w.registry) && NamedMechanisms(w) && ValidArrival(a)
    ensures Handle(w, recorder, seed, s, a).result.Failure? <==> NextDecisionId(seed, s) in s.records.byId
    ensures Handle(w, recorder, seed, s, a).result != Failure(RecordRejected)
  {
    IdentifiersDistinct(DEC, seed, Issued(s.counters, DEC) + 1, 0);
    RecordsAreValid(w, s.world, NextDecisionId(seed, s), a);
    FinalizeFailsOnlyOnReuse(w, recorder, seed, s, a.request, a.now, Judge(w, s.world, a.request, a.evidence));
  }

  lemma {:induction false} NextIsNew<S>(seed: string, s: ServiceState<S>)
    requires Accounted(seed, s)
    ensures NextDecisionId(seed, s) !in s.records.byId
  {
    if NextDecisionId(seed, s) in s.records.byId {
      IssuedIsNotNext(DEC, seed, Issued(s.counters, DEC), NextDecisionId(seed, s));
    }
  }

  lemma {:induction false} IssueSeparates(counters: Counters)
    ensures Issued(Issue(counters, DEC), DEC) == Issued(counters, DEC) + 1
    ensures Issued(Issue(Issue(counters, DEC), EVT), DEC) == Issued(counters, DEC) + 1
  {
    assert DEC[0] != EVT[0];
  }

  /** One request leaves one new record, under the next identifier, and touches no other. */
  lemma {:induction false} HandleRecordsOnce<S(!new)>(
      w: Wiring<S>, recorder: RecorderSettings, seed: string, s: ServiceState<S>, a: Arrival)
    requires ValidRegistry(w.registry) && NamedMechanisms(w) && ValidArrival(a) && Accounted(seed, s)
    ensures var handled := Handle(w, recorder, seed, s, a);
            && handled.result.Success?
            && handled.result.value.record.decisionId == NextDecisionId(seed, s)
            && NextDecisionId(seed, s) !in s.records.byId
            && handled.after.records == Add(s.records, handled.result.value.record)
            && Accounted(seed, handled.after)
  {
    HandleFailsOnlyOnReuse(w, recorder, seed, s, a);
    NextIsNew(seed, s);
    IssueSeparates(s.counters);
    var after := Handle(w, recorder, seed, s, a).after;
    var record := Handle(w, recorder, seed, s, a).result.value.record;
    AddKeeps(s.records, record);
    forall id <- after.records.byId ensures IssuedBefore(DEC, seed, Issued(after.counters, DEC), id) {
      if id == record.decisionId {
        assert id == Identifier(DEC, seed, Issued(s.counters, DEC) + 1);
      } else {
        assert IssuedBefore(DEC, seed, Issued(s.counters, DEC), id);
      }
    }
  }

  /** Every stored record of `before` is still there, unchanged, and in its place. */
  ghost predicate Extends(before: Records, after: Records) {
    before.order <= after.order && forall id <- before.byId :: id in after.byId && after.byId[id] == before.byId[id]
  }

  predicate StoredAs(result: Result<GovernedResult, HandleError>, records: Records, position: nat) {
    && result.Success?
    && position < |records.order|
    && records.order[position] == result.value.record.decisionId
    && result.value.record.decisionId in records.byId
    && records.byId[result.value.record.decisionId] == result.value.record
  }

  /** The results are stored one after another from a position on. */
  predicate StoredFrom(results: seq<Result<GovernedResult, HandleError>>, records: Records, position: nat) {
    forall i :: 0 <= i < |results| ==> StoredAs(results[i], records, position + i)
  }

  lemma {:induction false} StoredOneMore(
      before: Records, mid: Records, after: Records, head: Result<GovernedResult, HandleError>,
      tail: seq<Result<GovernedResult, HandleError>>)
    requires head.Success? && mid == Add(before, head.value.record) && head.value.record.decisionId !in before.byId
    requires Extends(mid, after) && StoredFrom(tail, after, |mid.order|)
    ensures Extends(before, after) && StoredFrom([head] + tail, after, |before.order|)
  {
    var id := head.value.record.decisionId;
    assert id in mid.byId && mid.order[|before.order|] == id;
    forall i | 0 <= i < |[head] + tail| ensures StoredAs(([head] + tail)[i], after, |before.order| + i) {
      if 0 < i {
        assert ([head] + tail)[i] == tail[i - 1];
        assert StoredAs(tail[i - 1], after, |mid.order| + (i - 1));
      }
    }
    forall kept <- before.byId ensures kept in after.byId && after.byId[kept] == before.byId[kept] {
      assert kept in mid.byId && mid.byId[kept] == before.byId[kept];
    }
  }

  /** A run of m requests succeeds m times and leaves exactly m new records, one for each result and in order;
      nothing already stored changes, and no identifier is ever used twice. */
  lemma {:induction false} OneRecordPerRequest<S(!new)>(
      w: Wiring<S>, recorder: RecorderSettings, seed: string, s: ServiceState<S>, arrivals: seq<Arrival>)
    requires ValidRegistry(w.registry) && NamedMechanisms(w) && Accounted(seed, s)
    requires forall a <- arrivals :: ValidArrival(a)
    ensures var run := Run(w, recorder, seed, s, arrivals);
            && Accounted(seed, run.after)
            && Extends(s.records, run.after.records)
            && |run.results| == |arrivals|
            && |run.after.records.order| == |s.records.order| + |arrivals|
            && StoredFrom(run.results, run.after.records, |s.records.order|)
    decreases |arrivals|
  {
    if arrivals != [] {
      HandleRecordsOnce(w, recorder, seed, s, arrivals[0]);
      var handled := Handle(w, recorder, seed, s, arrivals[0]);
      OneRecordPerRequest(w, recorder, seed, handled.after, arrivals[1..]);
      var tail := Run(w, recorder, seed, handled.after, arrivals[1..]);
      StoredOneMore(s.records, handled.after.records, tail.after.records, handled.result, tail.results);
    }
  }

  /** Resetting the identifier factory under a store in use breaks the promise: the first identifier is reissued
      and the store refuses the record. */
  lemma {:induction false} ResetFactoryIsRefused<S(!new)>(
      w: Wiring<S>, recorder: RecorderSettings, seed: string, s: ServiceState<S>, first: Arrival, second: Arrival)
    requires ValidRegistry(w.registry) && NamedMechanisms(w) && ValidArrival(first) && ValidArrival(second)
    requires s.counters == map[] && s.records == Records(map[], [])
    ensures var after := Handle(w, recorder, seed, s, first).after;
            Handle(w, recorder, seed, after.(counters := map[]), second).result == Failure(DecisionExists)
  {
    HandleFailsOnlyOnReuse(w, recorder, seed, s, first);
    var handled := Handle(w, recorder, seed, s, first);
    assert handled.result.value.record.decisionId in handled.after.records.byId;
    HandleFailsOnlyOnReuse(w, recorder, seed, handled.after.(counters := map[]), second);
  }
}
