/** What every lifecycle request is answered: exactly when it is recorded, why it is refused otherwise, and that
    every walk of the declared graph can be recorded. */
module LifecycleAnswers {
  import opened Collections
  import opened Domain
  import opened Identifiers
  import opened Lifecycle
  import opened LifecycleLog
  import opened LifecycleRuns
  import R = LifecycleReachability

  /** A transition carries what was asked, as the next in its decision's history and under the next identifier. */
  predicate Asked(c: Contract, seed: string, s: MachineState, req: Request, now: int, t: Transition) {
    && t.decisionId == req.decisionId && t.toState == req.toState && t.actor == req.actor
    && t.reasonCode == req.reasonCode && t.successor == req.successor && t.note == req.note
    && t.recordedAt == now && t.contractId == c.contractId && t.contractVersion == c.version
    && t.sequence == |ForDecision(s.log, req.decisionId)| + 1
    && t.transitionId == Identifier(TXN, seed, Issued(s.counters, TXN) + 1)
  }

  /** The transition a request is built into. */
  function Next(c: Contract, seed: string, s: MachineState, req: Request, now: int): Transition {
    Build(c, s.log, Identifier(TXN, seed, Issued(s.counters, TXN) + 1), req, now)
  }

  lemma {:induction false} AttemptResult(c: Contract, seed: string, s: MachineState, req: Request, now: int)
    requires Contiguous(s.log)
    ensures Attempt(c, seed, s, req, now).result
            == match Judge(c, s.log, req)
               case Some(refusal) => Failure(refusal)
               case None =>
                 var t := Next(c, seed, s, req, now);
                 if ValidTransition(t) then Success(t) else Failure(RecordInvalid)
  {
    IssueAddsOne(s.counters);
    NextAppendable(c, seed, s, req, now);
  }

  lemma IssueAddsOne(counters: Counters)
    ensures Issued(Issue(counters, TXN), TXN) == Issued(counters, TXN) + 1
  {
  }

  lemma {:induction false} NextAppendable(c: Contract, seed: string, s: MachineState, req: Request, now: int)
    requires Contiguous(s.log)
    ensures Appendable(s.log, Next(c, seed, s, req, now))
  {
    AppendAcceptsExactlyNext(s.log, Next(c, seed, s, req, now));
  }

  lemma {:induction false} AskedIsNext(
      c: Contract, seed: string, s: MachineState, req: Request, now: int, t: Transition)
    ensures t == Next(c, seed, s, req, now)
            <==> Asked(c, seed, s, req, now, t) && t.fromState == Some(CurrentState(c, s.log, req.decisionId))
  {
  }

  lemma {:induction false} NextIsLegalIff(c: Contract, seed: string, s: MachineState, req: Request, now: int)
    ensures LegalStep(c, CurrentState(c, s.log, req.decisionId), Next(c, seed, s, req, now))
            <==> Judge(c, s.log, req).None? && ValidTransition(Next(c, seed, s, req, now))
  {
    JudgePassesIff(c, s.log, req);
  }

  /** A request is recorded as a transition if and only if that transition carries what was asked and is a legal step
      from the decision's current state: no lawful request is refused, and no other is recorded. */
  lemma {:induction false} AttemptRecordsIff(
      c: Contract, seed: string, s: MachineState, req: Request, now: int, t: Transition)
    requires Contiguous(s.log)
    ensures Attempt(c, seed, s, req, now).result == Success(t)
            <==> Asked(c, seed, s, req, now, t) && LegalStep(c, CurrentState(c, s.log, req.decisionId), t)
  {
    AskedIsNext(c, seed, s, req, now, t);
    AttemptResult(c, seed, s, req, now);
    NextIsLegalIff(c, seed, s, req, now);
  }

  /** What the edge to the requested state demands of the request. */
  predicate Demanded(rule: TransitionRule, req: Request) {
    && (rule.requiresHumanReview ==> req.actor.IsAccountableHuman())
    && (rule.requiresRole ==> Named(req.actor.role))
    && (rule.requiresSuccessor ==> Named(req.successor))
  }

  lemma {:induction false} JudgePassesIff(c: Contract, log: seq<Transition>, req: Request)
    ensures var from := CurrentState(c, log, req.decisionId);
            var rule := RuleFor(c.lifecycle.transitions, from, req.toState);
            Judge(c, log, req).None? <==>
              from !in c.lifecycle.terminalStates && rule.Some? && Demanded(rule.value, req)
  {
  }

  predicate Accountable(actor: Actor) { actor.actorType == PRINCIPAL && actor.role.Some? && actor.role.value != "" }

  /** The defect of a request that each refusal stands for. No refusal stands for a request without one, and none is
      ever on account of the history. */
  ghost predicate RefusedFor(c: Contract, log: seq<Transition>, req: Request, refusal: Refusal) {
    var from := CurrentState(c, log, req.decisionId);
    var rule := RuleFor(c.lifecycle.transitions, from, req.toState);
    var open := from !in c.lifecycle.terminalStates;
    var declared := exists r <- c.lifecycle.transitions :: r.from == from && r.to == req.toState;
    var reviewed := rule.Some? && (rule.value.requiresHumanReview ==> Accountable(req.actor));
    var roled := rule.Some? && (rule.value.requiresRole ==> req.actor.role.Some? && req.actor.role.value != "");
    var succeeded := rule.Some? && (rule.value.requiresSuccessor ==> req.successor.Some? && req.successor.value != "");
    match refusal
    case LeavesTerminalState => !open
    case NotDeclared => open && !declared
    case ReviewMissing => open && declared && !reviewed
    case RoleMissing => open && declared && reviewed && !roled
    case SuccessorMissing => open && declared && reviewed && roled && !succeeded
    case RecordInvalid =>
      && open && declared && reviewed && roled && succeeded
      && (|| req.decisionId == "" || c.contractId == ""
          || (req.toState == SUPERSEDED && !(req.successor.Some? && req.successor.value != ""))
          || (req.toState != SUPERSEDED && req.successor.Some? && req.successor.value != "")
          || ((req.toState == ACCEPTED || req.toState == REJECTED) && !Accountable(req.actor)))
    case HistoryConflict => false
  }

  /** Each refusal is given exactly for the defect it stands for. */
  lemma {:induction false} RefusedExactlyFor(
      c: Contract, seed: string, s: MachineState, req: Request, now: int, refusal: Refusal)
    requires Contiguous(s.log)
    ensures Attempt(c, seed, s, req, now).result == Failure(refusal) <==> RefusedFor(c, s.log, req, refusal)
  {
    var n := Issued(Issue(s.counters, TXN), TXN);
    IdentifiersDistinct(TXN, seed, n, n);
    var built := Build(c, s.log, Identifier(TXN, seed, n), req, now);
    AppendAcceptsExactlyNext(s.log, built);
    BuiltValidIff(c, s.log, Identifier(TXN, seed, n), req, now);
    RefusalOfJudge(c, s.log, req, refusal);
  }

  lemma {:induction false} BuiltValidIff(c: Contract, log: seq<Transition>, id: string, req: Request, now: int)
    requires id != ""
    ensures ValidTransition(Build(c, log, id, req, now)) <==>
              && req.decisionId != "" && c.contractId != ""
              && (req.toState == SUPERSEDED <==> req.successor.Some? && req.successor.value != "")
              && (req.toState == ACCEPTED || req.toState == REJECTED ==> Accountable(req.actor))
  {
  }

  lemma {:induction false} RefusalOfJudge(c: Contract, log: seq<Transition>, req: Request, refusal: Refusal)
    ensures refusal != RecordInvalid && refusal != HistoryConflict ==>
              (Judge(c, log, req) == Some(refusal) <==> RefusedFor(c, log, req, refusal))
    ensures RefusedFor(c, log, req, RecordInvalid) ==> Judge(c, log, req) == None
    ensures Judge(c, log, req) != Some(RecordInvalid) && Judge(c, log, req) != Some(HistoryConflict)
    ensures Judge(c, log, req) == None ==>
              (RefusedFor(c, log, req, RecordInvalid) <==>
                 || req.decisionId == "" || c.contractId == ""
                 || !(req.toState == SUPERSEDED <==> req.successor.Some? && req.successor.value != "")
                 || ((req.toState == ACCEPTED || req.toState == REJECTED) && !Accountable(req.actor)))
  {
  }

  /** A request uses up one transition identifier if it gets as far as being built, and none otherwise; identifiers of
      other prefixes are untouched. */
  lemma {:induction false} AttemptNumbers(
      c: Contract, seed: string, s: MachineState, req: Request, now: int, prefix: string)
    requires Contiguous(s.log)
    ensures var attempted := Attempt(c, seed, s, req, now);
            var built := attempted.result.Success? || attempted.result == Failure(RecordInvalid);
            Issued(attempted.after.counters, prefix)
            == Issued(s.counters, prefix) + if built && prefix == TXN then 1 else 0
  {
    AttemptResult(c, seed, s, req, now);
    RefusalOfJudge(c, s.log, req, RecordInvalid);
    AttemptCounters(c, seed, s, req, now);
  }

  lemma {:induction false} AttemptCounters(c: Contract, seed: string, s: MachineState, req: Request, now: int)
    ensures Attempt(c, seed, s, req, now).after.counters
         == if Judge(c, s.log, req).None? then Issue(s.counters, TXN) else s.counters
  {
  }

  // ---- Every walk is recorded by some run ------------------------------------------------

  lemma {:induction false} RunConcat(c: Contract, seed: string, s: MachineState, first: seq<Timed>, later: seq<Timed>)
    ensures Run(c, seed, s, first + later) == Run(c, seed, Run(c, seed, s, first), later)
    decreases |first|
  {
    if first == [] {
      assert first + later == later;
    } else {
      assert (first + later)[1..] == first[1..] + later;
      RunConcat(c, seed, Attempt(c, seed, s, first[0].request, first[0].now).after, first[1..], later);
    }
  }

  /** Two histories are the same but for the identifiers of their transitions. */
  predicate SameButIds(xs: seq<Transition>, ys: seq<Transition>) {
    |xs| == |ys| && forall i :: 0 <= i < |xs| ==> xs[i].(transitionId := ys[i].transitionId) == ys[i]
  }

  /** The request that asks for a transition. */
  function Asking(t: Transition): Timed {
    Timed(Request(t.decisionId, t.toState, t.actor, t.reasonCode, t.successor, t.note), t.recordedAt)
  }

  function AskingAll(history: seq<Transition>): seq<Timed> {
    seq(|history|, i requires 0 <= i < |history| => Asking(history[i]))
  }

  predicate OneDecision(c: Contract, history: seq<Transition>, decisionId: string) {
    forall t <- history :: t.decisionId == decisionId && t.contractId == c.contractId && t.contractVersion == c.version
  }

  const EMPTY_LOG: MachineState := MachineState([], map[])

  lemma {:induction false} AskedIsRecorded(c: Contract, seed: string, s: MachineState, t: Transition)
    requires LegalLog(c, s.log) && t.contractId == c.contractId && t.contractVersion == c.version
    requires t.sequence == |ForDecision(s.log, t.decisionId)| + 1
    requires LegalStep(c, CurrentState(c, s.log, t.decisionId), t)
    ensures var after, history :=
              Attempt(c, seed, s, Asking(t).request, Asking(t).now).after, ForDecision(s.log, t.decisionId);
            && LegalLog(c, after.log)
            && |ForDecision(after.log, t.decisionId)| == |history| + 1
            && ForDecision(after.log, t.decisionId)[..|history|] == history
            && ForDecision(after.log, t.decisionId)[|history|].(transitionId := t.transitionId) == t
  {
    var id := Identifier(TXN, seed, Issued(s.counters, TXN) + 1);
    IdentifiersDistinct(TXN, seed, Issued(s.counters, TXN) + 1, 0);
    var given := t.(transitionId := id);
    assert Asked(c, seed, s, Asking(t).request, Asking(t).now, given);
    AttemptRecordsIff(c, seed, s, Asking(t).request, Asking(t).now, given);
    RecordedAtEnd(c, seed, s, Asking(t).request, Asking(t).now, given);
  }

  lemma {:induction false} RecordedAtEnd(
      c: Contract, seed: string, s: MachineState, req: Request, now: int, t: Transition)
    requires LegalLog(c, s.log) && Attempt(c, seed, s, req, now).result == Success(t)
    ensures LegalLog(c, Attempt(c, seed, s, req, now).after.log)
    ensures ForDecision(Attempt(c, seed, s, req, now).after.log, req.decisionId)
         == ForDecision(s.log, req.decisionId) + [t]
  {
    AttemptKeepsLegal(c, seed, s, req, now);
  }

  /** Every walk of the declared graph is recorded, identifiers aside, by asking for its transitions in turn. With
      the theorem that runs only record walks: the histories of the machine are exactly the walks of the contract. */
  lemma {:induction false} EveryWalkIsRecorded(c: Contract, seed: string, history: seq<Transition>, decisionId: string)
    requires Walk(c, history) && OneDecision(c, history, decisionId)
    ensures var log := Run(c, seed, EMPTY_LOG, AskingAll(history)).log;
            LegalLog(c, log) && SameButIds(ForDecision(log, decisionId), history)
    decreases |history|
  {
    if history == [] {
      EmptyLogLegal(c);
    } else {
      var earlier, t := history[..|history| - 1], history[|history| - 1];
      EveryWalkIsRecorded(c, seed, earlier, decisionId);
      AskingOneMore(c, seed, history);
      WalkGoesOn(c, seed, Run(c, seed, EMPTY_LOG, AskingAll(earlier)), history, decisionId);
    }
  }

  lemma {:induction false} AskingOneMore(c: Contract, seed: string, history: seq<Transition>)
    requires history != []
    ensures var s, t := Run(c, seed, EMPTY_LOG, AskingAll(history[..|history| - 1])), history[|history| - 1];
            Run(c, seed, EMPTY_LOG, AskingAll(history)) == Attempt(c, seed, s, Asking(t).request, Asking(t).now).after
  {
    var earlier, ask := history[..|history| - 1], Asking(history[|history| - 1]);
    assert AskingAll(history) == AskingAll(earlier) + [ask];
    RunConcat(c, seed, EMPTY_LOG, AskingAll(earlier), [ask]);
    assert [ask][1..] == [];
  }

  lemma {:induction false} LastStepLegal(
      c: Contract, log: seq<Transition>, history: seq<Transition>, decisionId: string)
    requires history != [] && Walk(c, history)
    requires LegalLog(c, log) && SameButIds(ForDecision(log, decisionId), history[..|history| - 1])
    ensures history[|history| - 1].sequence == |ForDecision(log, decisionId)| + 1
    ensures LegalStep(c, CurrentState(c, log, decisionId), history[|history| - 1])
  {
    var n := |history| - 1;
    SameStateBefore(c, log, history[..n], decisionId);
    WalkPrefix(c, history, n);
    assert StateBefore(c, history[..n], n) == StateBefore(c, history, n);
  }

  lemma {:induction false} WalkGoesOn(
      c: Contract, seed: string, s: MachineState, history: seq<Transition>, decisionId: string)
    requires history != [] && Walk(c, history) && OneDecision(c, history, decisionId)
    requires LegalLog(c, s.log) && SameButIds(ForDecision(s.log, decisionId), history[..|history| - 1])
    ensures var ask := Asking(history[|history| - 1]);
            var log := Attempt(c, seed, s, ask.request, ask.now).after.log;
            LegalLog(c, log) && SameButIds(ForDecision(log, decisionId), history)
  {
    var t := history[|history| - 1];
    assert t in history;
    LastStepLegal(c, s.log, history, decisionId);
    AskedIsRecorded(c, seed, s, t);
    var log := Attempt(c, seed, s, Asking(t).request, Asking(t).now).after.log;
    LastAdded(ForDecision(s.log, decisionId), ForDecision(log, decisionId), history);
  }

  lemma {:induction false} SameStateBefore(
      c: Contract, log: seq<Transition>, history: seq<Transition>, decisionId: string)
    requires LegalLog(c, log) && SameButIds(ForDecision(log, decisionId), history)
    ensures CurrentState(c, log, decisionId) == StateBefore(c, history, |history|)
  {
    CurrentStateIsLast(c, log, decisionId);
    var recorded := ForDecision(log, decisionId);
    if history != [] {
      var last := |history| - 1;
      assert recorded[last].(transitionId := history[last].transitionId) == history[last];
    }
  }

  lemma {:induction false} LastAdded(before: seq<Transition>, after: seq<Transition>, history: seq<Transition>)
    requires history != [] && SameButIds(before, history[..|history| - 1])
    requires |after| == |before| + 1 && after[..|before|] == before
    requires after[|before|].(transitionId := history[|history| - 1].transitionId) == history[|history| - 1]
    ensures SameButIds(after, history)
  {
    forall i | 0 <= i < |after| ensures after[i].(transitionId := history[i].transitionId) == history[i] {
      if i < |before| { assert after[i] == before[i] && history[..|history| - 1][i] == history[i]; }
    }
  }

  // ---- The v1.0 histories are all reached ------------------------------------------------

  function V1Step(
      c: Contract, decisionId: string, position: nat, from: LifecycleState, to: LifecycleState, actor: Actor,
      successor: Option<string>): Transition
  {
    Transition("any", decisionId, position, Some(from), to, actor, REVIEW_ACCEPTED, 0, c.contractId, c.version,
               successor, None)
  }

  lemma {:induction false} V1FirstStep(c: Contract, decisionId: string, to: LifecycleState, reviewer: Actor)
    requires c.lifecycle == R.V1 && c.contractId != "" && decisionId != "" && Accountable(reviewer)
    requires to == ACCEPTED || to == REJECTED
    ensures Walk(c, [V1Step(c, decisionId, 1, PROPOSED, to, reviewer, None)])
  {
    var t := V1Step(c, decisionId, 1, PROPOSED, to, reviewer, None);
    V1RulesFound();
    assert Walk(c, []);
    WalkExtends(c, [], t);
    assert [] + [t] == [t];
  }

  lemma {:induction false} V1SecondStep(c: Contract, decisionId: string, reviewer: Actor, successor: string)
    requires c.lifecycle == R.V1 && c.contractId != "" && decisionId != "" && successor != ""
    requires Walk(c, [V1Step(c, decisionId, 1, PROPOSED, ACCEPTED, reviewer, None)])
    ensures Walk(c, [V1Step(c, decisionId, 1, PROPOSED, ACCEPTED, reviewer, None),
                     V1Step(c, decisionId, 2, ACCEPTED, SUPERSEDED, reviewer, Some(successor))])
  {
    var first := V1Step(c, decisionId, 1, PROPOSED, ACCEPTED, reviewer, None);
    var second := V1Step(c, decisionId, 2, ACCEPTED, SUPERSEDED, reviewer, Some(successor));
    V1RulesFound();
    WalkExtends(c, [first], second);
    assert [first] + [second] == [first, second];
  }

  lemma {:induction false} V1WalkTo(
      c: Contract, decisionId: string, reviewer: Actor, successor: string, targets: seq<LifecycleState>)
      returns (history: seq<Transition>)
    requires c.lifecycle == R.V1 && c.contractId != "" && decisionId != "" && successor != ""
    requires Accountable(reviewer) && R.V1Targets(targets)
    ensures Walk(c, history) && OneDecision(c, history, decisionId) && R.Targets(history) == targets
  {
    V1FirstStep(c, decisionId, ACCEPTED, reviewer);
    V1FirstStep(c, decisionId, REJECTED, reviewer);
    V1SecondStep(c, decisionId, reviewer, successor);
    var accepted := V1Step(c, decisionId, 1, PROPOSED, ACCEPTED, reviewer, None);
    if targets == [] {
      history := [];
    } else if targets == [ACCEPTED] {
      history := [accepted];
    } else if targets == [REJECTED] {
      history := [V1Step(c, decisionId, 1, PROPOSED, REJECTED, reviewer, None)];
    } else {
      history := [accepted, V1Step(c, decisionId, 2, ACCEPTED, SUPERSEDED, reviewer, Some(successor))];
    }
  }

  /** Each of the four v1.0 histories is recorded by some run, for any decision and any accountable reviewer. */
  lemma {:induction false} V1HistoriesReached(
      c: Contract, seed: string, decisionId: string, reviewer: Actor, successor: string, targets: seq<LifecycleState>)
      returns (requests: seq<Timed>)
    requires c.lifecycle == R.V1 && c.contractId != "" && decisionId != "" && successor != ""
    requires Accountable(reviewer) && R.V1Targets(targets)
    ensures R.Targets(ForDecision(Run(c, seed, EMPTY_LOG, requests).log, decisionId)) == targets
  {
    var history := V1WalkTo(c, decisionId, reviewer, successor, targets);
    requests := AskingAll(history);
    EveryWalkIsRecorded(c, seed, history, decisionId);
    TargetsOf(ForDecision(Run(c, seed, EMPTY_LOG, requests).log, decisionId), history);
  }

  lemma V1RulesFound()
    ensures RuleFor(R.V1.transitions, PROPOSED, ACCEPTED) == Some(R.ReviewRule("ET-LC-001", PROPOSED, ACCEPTED))
    ensures RuleFor(R.V1.transitions, PROPOSED, REJECTED) == Some(R.ReviewRule("ET-LC-002", PROPOSED, REJECTED))
    ensures RuleFor(R.V1.transitions, ACCEPTED, SUPERSEDED) == Some(R.SupersedeRule("ET-LC-003", ACCEPTED))
  {
    var rules := R.V1.transitions;
    assert !Joins(rules[0], PROPOSED, REJECTED) && !Joins(rules[0], ACCEPTED, SUPERSEDED);
    assert !Joins(rules[1], ACCEPTED, SUPERSEDED);
    FirstDeclaredGoverns(rules, PROPOSED, ACCEPTED, 0);
    FirstDeclaredGoverns(rules, PROPOSED, REJECTED, 1);
    FirstDeclaredGoverns(rules, ACCEPTED, SUPERSEDED, 2);
  }

  lemma {:induction false} TargetsOf(xs: seq<Transition>, ys: seq<Transition>)
    requires SameButIds(xs, ys)
    ensures R.Targets(xs) == R.Targets(ys)
  {
    forall i | 0 <= i < |xs| ensures xs[i].toState == ys[i].toState {
      assert xs[i].(transitionId := ys[i].transitionId) == ys[i];
    }
  }
}
