/** The decision-record lifecycle: declared transitions, the log of recorded ones, and the judgement of a request. */
module Lifecycle {
  import opened Collections
  import opened Sorting
  import opened Domain
  import opened Identifiers

  datatype LifecycleState = PROPOSED | ACCEPTED | REJECTED | SUPERSEDED

  datatype TransitionRule = TransitionRule(
    id: string, from: LifecycleState, to: LifecycleState, requiresHumanReview: bool, requiresActor: bool,
    requiresRole: bool, requiresReasonCode: bool, requiresSuccessor: bool)

  datatype LifecycleSection = LifecycleSection(
    states: seq<LifecycleState>, initialState: LifecycleState, terminalStates: seq<LifecycleState>,
    transitions: seq<TransitionRule>)

  datatype Contract = Contract(contractId: string, version: string, lifecycle: LifecycleSection)

  datatype Transition = Transition(
    transitionId: string, decisionId: string, sequence: int, fromState: Option<LifecycleState>, toState: LifecycleState,
    actor: Actor, reasonCode: ReasonCode, recordedAt: int, contractId: string, contractVersion: string,
    successor: Option<string>, note: Option<string>)

  /** The declared transition between two states, if there is one. */
  function RuleFor(rules: seq<TransitionRule>, from: LifecycleState, to: LifecycleState): (rule: Option<TransitionRule>)
    ensures rule.Some? ==> rule.value in rules && rule.value.from == from && rule.value.to == to
    ensures rule.None? ==> forall r <- rules :: !(r.from == from && r.to == to)
  {
    if rules == [] then None
    else if rules[0].from == from && rules[0].to == to then Some(rules[0])
    else RuleFor(rules[1..], from, to)
  }

  predicate Joins(rule: TransitionRule, from: LifecycleState, to: LifecycleState) { rule.from == from && rule.to == to }

  /** When several declared transitions join two states, the first one declared governs. */
  lemma {:induction false} FirstDeclaredGoverns(
      rules: seq<TransitionRule>, from: LifecycleState, to: LifecycleState, i: nat)
    requires i <= |rules| && forall j :: 0 <= j < i ==> !Joins(rules[j], from, to)
    ensures RuleFor(rules, from, to)
         == if i == |rules| then None else if Joins(rules[i], from, to) then Some(rules[i])
              else RuleFor(rules[i + 1..], from, to)
    decreases |rules|
  {
    if 0 < i {
      assert !Joins(rules[0], from, to);
      FirstDeclaredGoverns(rules[1..], from, to, i - 1);
      if i < |rules| { assert rules[1..][i..] == rules[i + 1..]; }
    }
  }

  /** What the transition model itself enforces: identity, successor exactly on supersession, attribution of review. */
  predicate ValidTransition(t: Transition) {
    && t.transitionId != "" && t.decisionId != "" && t.contractId != "" && 1 <= t.sequence
    && (t.toState.SUPERSEDED? <==> Named(t.successor))
    && (t.toState.ACCEPTED? || t.toState.REJECTED? ==> t.actor.IsAccountableHuman())
  }

  // ---- The log and its projection --------------------------------------------------------

  predicate SequenceLeq(a: Transition, b: Transition) { a.sequence <= b.sequence }

  function OfDecision(decisionId: string): Transition -> bool { (t: Transition) => t.decisionId == decisionId }

  function UpTo(sequence: int): Transition -> bool { (t: Transition) => t.sequence <= sequence }

  /** A decision's part of the log, put in order of position. */
  function ForDecision(log: seq<Transition>, decisionId: string): seq<Transition> {
    Sort(SequenceLeq, Filter(OfDecision(decisionId), log))
  }

  function ProjectState(transitions: seq<Transition>, initial: LifecycleState): LifecycleState {
    if transitions == [] then initial
    else
      var ordered := Sort(SequenceLeq, transitions);
      ordered[|ordered| - 1].toState
  }

  function StateAt(transitions: seq<Transition>, sequence: int, initial: LifecycleState): LifecycleState {
    ProjectState(Filter(UpTo(sequence), transitions), initial)
  }

  function CurrentState(c: Contract, log: seq<Transition>, decisionId: string): LifecycleState {
    ProjectState(ForDecision(log, decisionId), c.lifecycle.initialState)
  }

  function Keys(log: seq<Transition>): set<(string, int)> { set t <- log :: (t.decisionId, t.sequence) }

  /** The log takes a transition whose position is new and next; it looks at nothing else. */
  predicate Appendable(log: seq<Transition>, t: Transition) {
    (t.decisionId, t.sequence) !in Keys(log) && t.sequence == |ForDecision(log, t.decisionId)| + 1
  }

  // ---- Requesting a transition -----------------------------------------------------------

  datatype Request = Request(
    decisionId: string, toState: LifecycleState, actor: Actor, reasonCode: ReasonCode,
    successor: Option<string>, note: Option<string>)

  datatype Refusal =
    | LeavesTerminalState
    | NotDeclared
    | ReviewMissing
    | RoleMissing
    | SuccessorMissing
    | RecordInvalid   // the transition model rejects the record
    | HistoryConflict // the log rejects its position

  /** The checks made before anything is recorded, in order. */
  function Judge(c: Contract, log: seq<Transition>, req: Request): Option<Refusal> {
    var from := CurrentState(c, log, req.decisionId);
    if from in c.lifecycle.terminalStates then Some(LeavesTerminalState)
    else
      match RuleFor(c.lifecycle.transitions, from, req.toState)
      case None => Some(NotDeclared)
      case Some(rule) =>
        if rule.requiresHumanReview && !req.actor.IsAccountableHuman() then Some(ReviewMissing)
        else if rule.requiresRole && !Named(req.actor.role) then Some(RoleMissing)
        else if rule.requiresSuccessor && !Named(req.successor) then Some(SuccessorMissing)
        else None
  }

  function Build(c: Contract, log: seq<Transition>, transitionId: string, req: Request, now: int): Transition {
    Transition(transitionId, req.decisionId, |ForDecision(log, req.decisionId)| + 1,
               Some(CurrentState(c, log, req.decisionId)), req.toState, req.actor, req.reasonCode, now,
               c.contractId, c.version, req.successor, req.note)
  }

  datatype MachineState = MachineState(log: seq<Transition>, counters: Counters)

  datatype Attempted = Attempted(after: MachineState, result: Result<Transition, Refusal>)

  const TXN: string := "txn"

  /** One attempt: judged, given an identifier, built, and appended. A refusal after the judgement has used up
      an identifier, but nothing is ever logged for it. */
  function Attempt(c: Contract, seed: string, s: MachineState, req: Request, now: int): Attempted {
    match Judge(c, s.log, req)
    case Some(refusal) => Attempted(s, Failure(refusal))
    case None =>
      var counters := Issue(s.counters, TXN);
      var t := Build(c, s.log, Identifier(TXN, seed, Issued(counters, TXN)), req, now);
      if !ValidTransition(t) then Attempted(s.(counters := counters), Failure(RecordInvalid))
      else if !Appendable(s.log, t) then Attempted(s.(counters := counters), Failure(HistoryConflict))
      else Attempted(MachineState(s.log + [t], counters), Success(t))
  }

  datatype Timed = Timed(request: Request, now: int)

  function Run(c: Contract, seed: string, s: MachineState, requests: seq<Timed>): MachineState
    decreases |requests|
  {
    if requests == [] then s
    else Run(c, seed, Attempt(c, seed, s, requests[0].request, requests[0].now).after, requests[1..])
  }
}
