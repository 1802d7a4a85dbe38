/** The state machine as an object over its log, identifier factory and clock. */
module LifecycleMachine {
  import opened Collections
  import opened Domain
  import opened Identifiers
  import opened Lifecycle
  import opened LifecycleLog

  class LifecycleStateMachine {
    const contract: Contract
    const log: InMemoryTransitionLog
    const clock: FixedClock
    const ids: SequentialIdFactory

    ghost predicate Valid()
      reads this, log
    {
      log.Valid()
    }

    ghost function State(): MachineState
      reads this, log, ids
    {
      MachineState(log.transitions, ids.counters)
    }

    constructor (contract: Contract, log: InMemoryTransitionLog, clock: FixedClock, ids: SequentialIdFactory)
      requires log.Valid()
      ensures Valid()
      ensures this.contract == contract && this.log == log && this.clock == clock && this.ids == ids
    {
      this.contract, this.log, this.clock, this.ids := contract, log, clock, ids;
    }

    /** Derived from the log; no current state is stored. */
    function CurrentStateOf(decisionId: string): LifecycleState
      reads this, log
    {
      CurrentState(contract, log.transitions, decisionId)
    }

    /** Validates and records a transition. */
    method Transition(req: Request) returns (result: Result<Transition, Refusal>)
      requires Valid()
      modifies log, ids
      ensures Valid()
      ensures Attempted(State(), result) == Attempt(contract, ids.seed, old(State()), req, clock.now)
    {
      var lifecycle := contract.lifecycle;
      var from := CurrentStateOf(req.decisionId);
      if from in lifecycle.terminalStates {
        return Failure(LeavesTerminalState);
      }
      var rule := RuleFor(lifecycle.transitions, from, req.toState);
      if rule.None? {
        return Failure(NotDeclared);
      }
      if rule.value.requiresHumanReview && !req.actor.IsAccountableHuman() {
        return Failure(ReviewMissing);
      }
      if rule.value.requiresRole && !Named(req.actor.role) {
        return Failure(RoleMissing);
      }
      if rule.value.requiresSuccessor && !Named(req.successor) {
        return Failure(SuccessorMissing);
      }
      var id := ids.NewId(TXN);
      var now := clock.Now();
      var t := Lifecycle.Transition(
        id, req.decisionId, |ForDecision(log.transitions, req.decisionId)| + 1, Some(from), req.toState, req.actor,
        req.reasonCode, now, contract.contractId, contract.version, req.successor, req.note);
      if !ValidTransition(t) {
        return Failure(RecordInvalid);
      }
      var appended := log.Append(t);
      result := if appended.Success? then Success(t) else Failure(HistoryConflict);
    }

    /** An accountable human's acceptance. */
    method Accept(
        decisionId: string, reviewer: Actor, note: Option<string>) returns (result: Result<Transition, Refusal>)
      requires Valid()
      modifies log, ids
      ensures Valid()
      ensures Attempted(State(), result)
           == Attempt(contract, ids.seed, old(State()),
                      Request(decisionId, ACCEPTED, reviewer, REVIEW_ACCEPTED, None, note), clock.now)
    {
      result := Transition(Request(decisionId, ACCEPTED, reviewer, REVIEW_ACCEPTED, None, note));
    }

    /** An accountable human's rejection; the record is retained. */
    method Reject(
        decisionId: string, reviewer: Actor, note: Option<string>) returns (result: Result<Transition, Refusal>)
      requires Valid()
      modifies log, ids
      ensures Valid()
      ensures Attempted(State(), result)
           == Attempt(contract, ids.seed, old(State()),
                      Request(decisionId, REJECTED, reviewer, REVIEW_REJECTED, None, note), clock.now)
    {
      result := Transition(Request(decisionId, REJECTED, reviewer, REVIEW_REJECTED, None, note));
    }

    /** Supersession, by reference to the successor. */
    method Supersede(
        decisionId: string, successor: string, actor: Actor, note: Option<string>)
      returns (result: Result<Transition, Refusal>)
      requires Valid()
      modifies log, ids
      ensures Valid()
      ensures Attempted(State(), result)
           == Attempt(contract, ids.seed, old(State()),
                      Request(decisionId, SUPERSEDED, actor, SUPERSESSION_REPLACED, Some(successor), note), clock.now)
    {
      result := Transition(Request(decisionId, SUPERSEDED, actor, SUPERSESSION_REPLACED, Some(successor), note));
    }
  }
}
