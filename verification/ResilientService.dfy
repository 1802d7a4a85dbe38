/** The governed path with the circuit breaker as its verifier: what the breaker's runs mean for requests. */
module ResilientService {
  import opened Collections
  import opened Domain
  import opened DecisionFunction
  import opened Evidence
  import opened ServiceModel
  import opened ServiceRuns
  import opened DecisionAnswers
  import opened ServiceAnswers
  import B = Breaker
  import BR = BreakerRuns
  import BT = BreakerTrips

  /** The breaker's state, and how many verifications it has been asked for. */
  datatype BreakerWorld = BreakerWorld(state: B.State, calls: nat)

  /** What the two mechanisms would do at each verification. */
  type Mechanisms = (nat, string, EvidenceSet, string) -> (B.Probe<VerifierResponse>, B.Probe<VerifierResponse>)

  function VerifyThroughBreaker(
      cfg: B.Settings, mechanisms: Mechanisms, world: BreakerWorld, answer: string, window: EvidenceSet,
      question: string)
    : (BreakerWorld, Verification)
  {
    var (primary, conservative) := mechanisms(world.calls, answer, window, question);
    var routed := B.Call(cfg, world.state, primary, conservative);
    (BreakerWorld(routed.after, world.calls + 1),
     match routed.outcome
       case Responded(response) => Verification.Responded(response)
       case Failed(code) => Raised(code)
       case Unavailable => Raised(Controlled(NO_VERIFIER_AVAILABLE)))
  }

  /** A service whose generator is a plain function and whose verifier is the breaker. */
  function ResilientWiring(
      registry: Registry, authorize: (Actor, string) -> AuthorizationDecision,
      generate: (string, EvidenceSet) -> string,
      cfg: B.Settings, mechanisms: Mechanisms, environment: Environment, population: Population): Wiring<BreakerWorld> {
    Wiring(registry, authorize,
           (world: BreakerWorld, question: string, window: EvidenceSet) => (world, generate(question, window)),
           (world: BreakerWorld, answer: string, window: EvidenceSet, question: string) =>
             VerifyThroughBreaker(cfg, mechanisms, world, answer, window, question),
           "resilient(" + cfg.primary + ")", environment, population)
  }

  /** A wiring whose verifier is this breaker over these mechanisms, and whose generator leaves the breaker alone. */
  ghost predicate RunsThroughBreaker(w: Wiring<BreakerWorld>, cfg: B.Settings, mechanisms: Mechanisms) {
    && (forall world: BreakerWorld, question: string, window: EvidenceSet ::
          w.generate(world, question, window).0 == world)
    && (forall world: BreakerWorld, answer: string, window: EvidenceSet, question: string ::
          w.verify(world, answer, window, question)
            == VerifyThroughBreaker(cfg, mechanisms, world, answer, window, question))
  }

  lemma ResilientWiringRunsThroughBreaker(
      registry: Registry, authorize: (Actor, string) -> AuthorizationDecision,
      generate: (string, EvidenceSet) -> string,
      cfg: B.Settings, mechanisms: Mechanisms, environment: Environment, population: Population)
    ensures RunsThroughBreaker(ResilientWiring(registry, authorize, generate, cfg, mechanisms, environment, population),
                               cfg, mechanisms)
  {
  }

  /** The probes the breaker meets when a permitted request is verified. */
  function ProbesFor(
      w: Wiring<BreakerWorld>, mechanisms: Mechanisms, world: BreakerWorld, req: TrustRequest, e: EvidenceSet)
    : (B.Probe<VerifierResponse>, B.Probe<VerifierResponse>)
    requires Governed(w, req)
  {
    var window := WindowFor(w, req, e);
    mechanisms(world.calls, w.generate(world, req.question, window).1, window, req.question)
  }

  /** A request moves the breaker by one call when it is permitted, and not at all otherwise. */
  lemma {:induction false} RequestIsBreakerStep(
      w: Wiring<BreakerWorld>, cfg: B.Settings, mechanisms: Mechanisms, world: BreakerWorld, req: TrustRequest,
      e: EvidenceSet)
    requires ValidRegistry(w.registry) && RunsThroughBreaker(w, cfg, mechanisms)
    ensures var j := Judge(w, world, req, e);
            if Permits(w, req, e) then
              var (p, c) := ProbesFor(w, mechanisms, world, req, e);
              && j.world == BreakerWorld(B.Call(cfg, world.state, p, c).after, world.calls + 1)
              && (B.Call(cfg, world.state, p, c).outcome.Unavailable? ==>
                    j.decision.outcome.REFUSED? && j.decision.reasonCode == Some(NO_VERIFIER_AVAILABLE))
            else j.world == world && j.decision.outcome.REFUSED?
  {
    GenerationExactlyWhenPermitted(w, world, req, e);
    if Permits(w, req, e) {
      assert Judge(w, world, req, e).world == Answer(w, world, req, WindowFor(w, req, e)).0;
      assert Judge(w, world, req, e).decision == Answer(w, world, req, WindowFor(w, req, e)).1;
    }
  }

  lemma {:induction false} VerifiedThroughBreaker(
      w: Wiring<BreakerWorld>, cfg: B.Settings, mechanisms: Mechanisms, world: BreakerWorld, req: TrustRequest,
      e: EvidenceSet)
    requires Governed(w, req) && RunsThroughBreaker(w, cfg, mechanisms)
    ensures var (p, c) := ProbesFor(w, mechanisms, world, req, e);
            var outcome := B.Call(cfg, world.state, p, c).outcome;
            VerificationOf(w, world, req, WindowFor(w, req, e)).Responded? ==>
              outcome.Responded? && outcome.response == VerificationOf(w, world, req, WindowFor(w, req, e)).response
  {
    var window := WindowFor(w, req, e);
    var (written, answer) := w.generate(world, req.question, window);
    assert written == world;
    assert w.verify(world, answer, window, req.question)
      == VerifyThroughBreaker(cfg, mechanisms, world, answer, window, req.question);
  }

  /** What a decision has to say of a breaker's call. */
  ghost predicate AnsweredCall(outcome: B.Outcome<VerifierResponse>, verifierName: string, d: VerificationDecision) {
    match outcome
    case Responded(response) => Decides(response, d)
    case Failed(Controlled(code)) => Refuses(d, code, verifierName)
    case Failed(Uncontrolled(_)) => Refuses(d, VERIFIER_ERROR, verifierName)
    case Unavailable => Refuses(d, NO_VERIFIER_AVAILABLE, verifierName)
  }

  /** A permitted request is answered for what its call came to: a response is decided, and a fault is refused with
      the code that the one mechanism invoked raised, if controlled, or as no verifier being available. */
  lemma {:induction false} CallAnswersRequest(
      w: Wiring<BreakerWorld>, cfg: B.Settings, mechanisms: Mechanisms, world: BreakerWorld, req: TrustRequest,
      e: EvidenceSet)
    requires ValidRegistry(w.registry) && RunsThroughBreaker(w, cfg, mechanisms) && Permits(w, req, e)
    ensures var (p, c) := ProbesFor(w, mechanisms, world, req, e);
            var routed := B.Call(cfg, world.state, p, c);
            && AnsweredCall(routed.outcome, w.verifierName, Judge(w, world, req, e).decision)
            && (routed.outcome.Failed? ==>
                  && |routed.invoked| == 1
                  && routed.invoked[0].probe.attempt == B.Faults(routed.outcome.reasonCode))
  {
    var (p, c) := ProbesFor(w, mechanisms, world, req, e);
    AnsweredExactly(w, world, req, e);
    B.FailureHasAServer(cfg, world.state, p, c);
    VerificationIsCall(w, cfg, mechanisms, world, req, e);
  }

  lemma {:induction false} VerificationIsCall(
      w: Wiring<BreakerWorld>, cfg: B.Settings, mechanisms: Mechanisms, world: BreakerWorld, req: TrustRequest,
      e: EvidenceSet)
    requires Governed(w, req) && RunsThroughBreaker(w, cfg, mechanisms)
    ensures var (p, c) := ProbesFor(w, mechanisms, world, req, e);
            VerificationOf(w, world, req, WindowFor(w, req, e))
            == match B.Call(cfg, world.state, p, c).outcome
               case Responded(response) => Verification.Responded(response)
               case Failed(code) => Raised(code)
               case Unavailable => Raised(Controlled(NO_VERIFIER_AVAILABLE))
  {
    var window := WindowFor(w, req, e);
    var (written, answer) := w.generate(world, req.question, window);
    assert written == world;
    assert w.verify(world, answer, window, req.question)
      == VerifyThroughBreaker(cfg, mechanisms, world, answer, window, req.question);
  }

  /** A grounded answer always had a working checker: one mechanism, neither tripped nor reporting itself
      unhealthy, was invoked for this request and its response is the one that warrants the answer. */
  lemma {:induction false} GroundedHadAServer(
      w: Wiring<BreakerWorld>, cfg: B.Settings, mechanisms: Mechanisms, world: BreakerWorld, req: TrustRequest,
      e: EvidenceSet)
    requires ValidRegistry(w.registry) && RunsThroughBreaker(w, cfg, mechanisms)
    ensures Judge(w, world, req, e).decision.outcome.GROUNDED? ==>
              && Permits(w, req, e)
              && var (p, c) := ProbesFor(w, mechanisms, world, req, e);
                 var routed := B.Call(cfg, world.state, p, c);
                 && routed.outcome.Responded? && Warranted(routed.outcome.response)
                 && |routed.invoked| == 1 && routed.invoked[0].probe.healthy
                 && routed.invoked[0].probe.attempt == B.Answers(routed.outcome.response)
                 && !B.Tripped(cfg, world.state, routed.invoked[0].name)
  {
    GroundedExactly(w, world, req, e);
    if Judge(w, world, req, e).decision.outcome.GROUNDED? {
      var (p, c) := ProbesFor(w, mechanisms, world, req, e);
      VerifiedThroughBreaker(w, cfg, mechanisms, world, req, e);
      B.ResponseHasAServer(cfg, world.state, p, c);
    }
  }

  /** The breaker actions a run of requests amounts to. */
  function ActionsOf(
      w: Wiring<BreakerWorld>, mechanisms: Mechanisms, recorder: RecorderSettings, seed: string,
      s: ServiceState<BreakerWorld>, arrivals: seq<Arrival>)
    : seq<B.Action<VerifierResponse>>
    decreases |arrivals|
  {
    if arrivals == [] then []
    else
      var a := arrivals[0];
      var rest := ActionsOf(w, mechanisms, recorder, seed, Handle(w, recorder, seed, s, a).after, arrivals[1..]);
      if Permits(w, a.request, a.evidence) then
        var (p, c) := ProbesFor(w, mechanisms, s.world, a.request, a.evidence);
        [B.Verify(p, c)] + rest
      else rest
  }

  /** A run of requests is a run of the breaker, so everything proved of the breaker's runs holds of services. */
  lemma {:induction false} ServiceRunIsBreakerRun(
      w: Wiring<BreakerWorld>, cfg: B.Settings, mechanisms: Mechanisms, recorder: RecorderSettings, seed: string,
      s: ServiceState<BreakerWorld>, arrivals: seq<Arrival>)
    requires ValidRegistry(w.registry) && RunsThroughBreaker(w, cfg, mechanisms)
    ensures Run(w, recorder, seed, s, arrivals).after.world.state
         == B.Run(cfg, s.world.state, ActionsOf(w, mechanisms, recorder, seed, s, arrivals))
    decreases |arrivals|
  {
    if arrivals != [] {
      var a := arrivals[0];
      var mid := Handle(w, recorder, seed, s, a).after;
      RequestIsBreakerStep(w, cfg, mechanisms, s.world, a.request, a.evidence);
      assert mid.world == Judge(w, s.world, a.request, a.evidence).world;
      ServiceRunIsBreakerRun(w, cfg, mechanisms, recorder, seed, mid, arrivals[1..]);
      var rest := ActionsOf(w, mechanisms, recorder, seed, mid, arrivals[1..]);
      if Permits(w, a.request, a.evidence) {
        var (p, c) := ProbesFor(w, mechanisms, s.world, a.request, a.evidence);
        var actions: seq<B.Action<VerifierResponse>> := [B.Verify(p, c)] + rest;
        assert actions[1..] == rest;
      }
    }
  }

  /** End to end: a new service serves any requests at all; then, if every verification goes wrong for twice
      the exposure limit of permitted requests, every later permitted request is refused because no verifier is
      available, and is never answered unverified. */
  lemma {:induction false} PersistentFaultsRefuseRequests(
      w: Wiring<BreakerWorld>, cfg: B.Settings, mechanisms: Mechanisms, recorder: RecorderSettings, seed: string,
      initial: ServiceState<BreakerWorld>, before: seq<Arrival>, wrong: seq<Arrival>, req: TrustRequest, e: EvidenceSet)
    requires ValidRegistry(w.registry) && RunsThroughBreaker(w, cfg, mechanisms) && BR.CanTrip(cfg)
    requires initial.world.state == B.Initial(cfg)
    requires var s := Run(w, recorder, seed, initial, before).after;
             var actions := ActionsOf(w, mechanisms, recorder, seed, s, wrong);
             2 * BR.ExposureLimit(cfg) <= |actions| && forall action <- actions :: BR.AllGoWrong(action)
    requires Permits(w, req, e)
    ensures var s := Run(w, recorder, seed, Run(w, recorder, seed, initial, before).after, wrong).after;
            var d := Judge(w, s.world, req, e).decision;
            d.outcome.REFUSED? && d.reasonCode == Some(NO_VERIFIER_AVAILABLE)
  {
    var mid := Run(w, recorder, seed, initial, before).after;
    var s := Run(w, recorder, seed, mid, wrong).after;
    var first, later :=
      ActionsOf(w, mechanisms, recorder, seed, initial, before), ActionsOf(w, mechanisms, recorder, seed, mid, wrong);
    ServiceRunIsBreakerRun(w, cfg, mechanisms, recorder, seed, initial, before);
    ServiceRunIsBreakerRun(w, cfg, mechanisms, recorder, seed, mid, wrong);
    BR.RunConcat(cfg, B.Initial(cfg), first, later);
    var (p, c) := ProbesFor(w, mechanisms, s.world, req, e);
    BR.PersistentFaultsEndInRefusal(cfg, first, later, p, c);
    RequestIsBreakerStep(w, cfg, mechanisms, s.world, req, e);
  }

  /** The request is permitted, and the conservative mechanism's response to it warrants an answer. */
  ghost predicate ConservativeWarrants(
      w: Wiring<BreakerWorld>, cfg: B.Settings, mechanisms: Mechanisms, world: BreakerWorld, req: TrustRequest,
      e: EvidenceSet)
  {
    && Permits(w, req, e)
    && var (_, c) := ProbesFor(w, mechanisms, world, req, e);
       cfg.conservative.Some? && c.healthy && c.attempt.Answers? && Warranted(c.attempt.response)
  }

  lemma {:induction false} GroundedWithoutPrimary(
      w: Wiring<BreakerWorld>, cfg: B.Settings, mechanisms: Mechanisms, world: BreakerWorld, req: TrustRequest,
      e: EvidenceSet)
    requires ValidRegistry(w.registry) && RunsThroughBreaker(w, cfg, mechanisms)
    requires B.Tripped(cfg, world.state, cfg.primary)
    ensures Judge(w, world, req, e).decision.outcome.GROUNDED? ==>
              ConservativeWarrants(w, cfg, mechanisms, world, req, e)
  {
    GroundedHadAServer(w, cfg, mechanisms, world, req, e);
    if Judge(w, world, req, e).decision.outcome.GROUNDED? {
      var (p, c) := ProbesFor(w, mechanisms, world, req, e);
      var routed := B.Call(cfg, world.state, p, c);
      B.ConservativeOnlyInstead(cfg, world.state, p, c);
      BR.TrippedIsSkipped(cfg, world.state, B.Candidates(cfg, p, c), cfg.primary);
      assert routed.invoked[0] in routed.invoked;
    }
  }

  lemma {:induction false} PrimaryOutageReachesBreaker(
      w: Wiring<BreakerWorld>, cfg: B.Settings, mechanisms: Mechanisms, recorder: RecorderSettings, seed: string,
      initial: ServiceState<BreakerWorld>, before: seq<Arrival>, wrong: seq<Arrival>)
    requires ValidRegistry(w.registry) && RunsThroughBreaker(w, cfg, mechanisms)
    requires BR.CanTrip(cfg) && cfg.conservative != Some(cfg.primary) && initial.world.state == B.Initial(cfg)
    requires var s := Run(w, recorder, seed, initial, before).after;
             var actions := ActionsOf(w, mechanisms, recorder, seed, s, wrong);
             BR.ExposureLimit(cfg) <= |actions| && forall action <- actions :: BT.PrimaryGoesWrong(action)
    ensures var s := Run(w, recorder, seed, Run(w, recorder, seed, initial, before).after, wrong).after;
            B.Tripped(cfg, s.world.state, cfg.primary)
  {
    var mid := Run(w, recorder, seed, initial, before).after;
    var first := ActionsOf(w, mechanisms, recorder, seed, initial, before);
    var later := ActionsOf(w, mechanisms, recorder, seed, mid, wrong);
    ServiceRunIsBreakerRun(w, cfg, mechanisms, recorder, seed, initial, before);
    ServiceRunIsBreakerRun(w, cfg, mechanisms, recorder, seed, mid, wrong);
    BR.RunConcat(cfg, B.Initial(cfg), first, later);
    BT.PrimaryOutageTrips(cfg, first, later);
  }

  /** End to end, when only the primary fails: after an exposure limit of permitted requests whose primary goes
      wrong, whatever the conservative mechanism did for them, every grounded answer rests on a response of the
      conservative mechanism. */
  lemma {:induction false} PrimaryOutageMovesVerification(
      w: Wiring<BreakerWorld>, cfg: B.Settings, mechanisms: Mechanisms, recorder: RecorderSettings, seed: string,
      initial: ServiceState<BreakerWorld>, before: seq<Arrival>, wrong: seq<Arrival>, req: TrustRequest, e: EvidenceSet)
    requires ValidRegistry(w.registry) && RunsThroughBreaker(w, cfg, mechanisms)
    requires BR.CanTrip(cfg) && cfg.conservative != Some(cfg.primary) && initial.world.state == B.Initial(cfg)
    requires var s := Run(w, recorder, seed, initial, before).after;
             var actions := ActionsOf(w, mechanisms, recorder, seed, s, wrong);
             BR.ExposureLimit(cfg) <= |actions| && forall action <- actions :: BT.PrimaryGoesWrong(action)
    ensures var s := Run(w, recorder, seed, Run(w, recorder, seed, initial, before).after, wrong).after;
            Judge(w, s.world, req, e).decision.outcome.GROUNDED? ==>
              ConservativeWarrants(w, cfg, mechanisms, s.world, req, e)
  {
    PrimaryOutageReachesBreaker(w, cfg, mechanisms, recorder, seed, initial, before, wrong);
    var s := Run(w, recorder, seed, Run(w, recorder, seed, initial, before).after, wrong).after;
    GroundedWithoutPrimary(w, cfg, mechanisms, s.world, req, e);
  }
}
