/** Every run of the lifecycle machine walks the declared graph, and never rewrites what it recorded. */
module LifecycleRuns {
  import opened Collections
  import opened Domain
  import opened Identifiers
  import opened Lifecycle
  import opened LifecycleLog

  /** A transition that may follow a state: not out of a terminal state, along a declared edge, with everything
      that edge requires, and recorded as coming from that state. */
  predicate LegalStep(c: Contract, from: LifecycleState, t: Transition) {
    && from !in c.lifecycle.terminalStates
    && t.fromState == Some(from)
    && ValidTransition(t)
    && var rule := RuleFor(c.lifecycle.transitions, from, t.toState);
       && rule.Some?
       && (rule.value.requiresHumanReview ==> t.actor.IsAccountableHuman())
       && (rule.value.requiresRole ==> Named(t.actor.role))
       && (rule.value.requiresSuccessor ==> Named(t.successor))
  }

  function StateBefore(c: Contract, history: seq<Transition>, i: nat): LifecycleState
    requires i <= |history|
  {
    if i == 0 then c.lifecycle.initialState else history[i - 1].toState
  }

  /** A history built by legal steps from the initial state, each from where the last one ended. */
  predicate Walk(c: Contract, history: seq<Transition>) {
    history == [] ||
    var last := |history| - 1;
    && Walk(c, history[..last])
    && history[last].sequence == |history|
    && LegalStep(c, StateBefore(c, history, last), history[last])
  }

  predicate LegalAt(c: Contract, history: seq<Transition>, i: nat)
    requires i < |history|
  {
    LegalStep(c, StateBefore(c, history, i), history[i])
  }

  /** Read position by position: the positions count from one and every step is legal where it was taken. */
  lemma {:induction false} WalkMeaning(c: Contract, history: seq<Transition>)
    ensures Walk(c, history) <==> Numbered(history) && forall i :: 0 <= i < |history| ==> LegalAt(c, history, i)
  {
    if Walk(c, history) {
      forall i | 0 <= i < |history| ensures LegalAt(c, history, i) { WalkPrefix(c, history, i); }
      WalkNumbered(c, history);
    }
    if Numbered(history) && forall i :: 0 <= i < |history| ==> LegalAt(c, history, i) {
      LegalStepsWalk(c, history, |history|);
      assert history[..|history|] == history;
    }
  }

  lemma {:induction false} WalkNumbered(c: Contract, history: seq<Transition>)
    requires Walk(c, history)
    ensures Numbered(history)
  {
    if history != [] { WalkNumbered(c, history[..|history| - 1]); }
  }

  lemma {:induction false} LegalStepsWalk(c: Contract, history: seq<Transition>, k: nat)
    requires Numbered(history) && k <= |history|
    requires forall i :: 0 <= i < |history| ==> LegalAt(c, history, i)
    ensures Walk(c, history[..k])
  {
    if 0 < k {
      LegalStepsWalk(c, history, k - 1);
      assert LegalAt(c, history, k - 1);
      assert StateBefore(c, history[..k - 1], k - 1) == StateBefore(c, history, k - 1);
      WalkExtends(c, history[..k - 1], history[k - 1]);
      assert history[..k] == history[..k - 1] + [history[k - 1]];
    }
  }

  lemma {:induction false} WalkExtends(c: Contract, history: seq<Transition>, t: Transition)
    ensures Walk(c, history + [t]) <==>
              Walk(c, history) && t.sequence == |history| + 1 && LegalStep(c, StateBefore(c, history, |history|), t)
  {
    assert (history + [t])[..|history|] == history;
  }

  lemma {:induction false} WalkPrefix(c: Contract, history: seq<Transition>, k: nat)
    requires Walk(c, history) && k <= |history|
    ensures Walk(c, history[..k])
    ensures k < |history| ==> LegalStep(c, StateBefore(c, history, k), history[k])
  {
    if k < |history| - 1 {
      WalkPrefix(c, history[..|history| - 1], k);
      assert history[..|history| - 1][..k] == history[..k];
    } else if k == |history| {
      assert history[..k] == history;
    }
  }

  ghost predicate LegalLog(c: Contract, log: seq<Transition>) {
    && Contiguous(log)
    && forall decisionId: string :: Walk(c, ForDecision(log, decisionId))
  }

  lemma {:induction false} EmptyLogLegal(c: Contract)
    ensures LegalLog(c, [])
  {
  }

  lemma {:induction false} CurrentStateIsLast(c: Contract, log: seq<Transition>, decisionId: string)
    requires Contiguous(log)
    ensures var history := ForDecision(log, decisionId);
            CurrentState(c, log, decisionId) == StateBefore(c, history, |history|)
  {
    ForDecisionIsFilter(log, decisionId);
    NumberedSorted(ForDecision(log, decisionId));
  }

  /** A log whose positions are in order stays legal under an append exactly when the appended transition is a
      legal step. The log itself checks only the position, so legality is the machine's doing. */
  lemma {:induction false} AppendLegalIff(c: Contract, log: seq<Transition>, t: Transition)
    requires LegalLog(c, log) && Appendable(log, t)
    ensures LegalLog(c, log + [t]) <==> LegalStep(c, CurrentState(c, log, t.decisionId), t)
  {
    var d := t.decisionId;
    AppendKeepsContiguous(log, t);
    CurrentStateIsLast(c, log, d);
    WalkExtends(c, ForDecision(log, d), t);
    assert Walk(c, ForDecision(log + [t], d)) <==> LegalStep(c, CurrentState(c, log, d), t);
    forall decisionId: string | decisionId != d ensures Walk(c, ForDecision(log + [t], decisionId)) {
      assert ForDecision(log + [t], decisionId) == ForDecision(log, decisionId);
    }
  }

  lemma {:induction false} AttemptRecordsOrNot(c: Contract, seed: string, s: MachineState, req: Request, now: int)
    requires Contiguous(s.log)
    ensures var attempted := Attempt(c, seed, s, req, now);
            && attempted.result != Failure(HistoryConflict)
            && (attempted.result.Failure? ==> attempted.after.log == s.log)
            && (attempted.result.Success? ==>
                  var t := attempted.result.value;
                  && attempted.after.log == s.log + [t]
                  && t.decisionId == req.decisionId && t.toState == req.toState
                  && Appendable(s.log, t) && LegalStep(c, CurrentState(c, s.log, req.decisionId), t))
  {
    if Judge(c, s.log, req).None? {
      AppendAcceptsExactlyNext(s.log,
                               Build(c, s.log, Identifier(TXN, seed, Issued(Issue(s.counters, TXN), TXN)), req, now));
    }
  }

  lemma {:induction false} LegalStepAdvances(c: Contract, log: seq<Transition>, t: Transition)
    requires LegalLog(c, log) && Appendable(log, t) && LegalStep(c, CurrentState(c, log, t.decisionId), t)
    ensures LegalLog(c, log + [t])
    ensures ForDecision(log + [t], t.decisionId) == ForDecision(log, t.decisionId) + [t]
    ensures CurrentState(c, log + [t], t.decisionId) == t.toState
    ensures forall other: string :: other != t.decisionId ==> ForDecision(log + [t], other) == ForDecision(log, other)
  {
    AppendAcceptsExactlyNext(log, t);
    AppendLegalIff(c, log, t);
    AppendKeepsContiguous(log, t);
    CurrentStateIsLast(c, log + [t], t.decisionId);
  }

  /** One attempt on a legal log: it never conflicts with the log, it records exactly a legal step or nothing,
      and other decisions' histories are untouched either way. */
  lemma {:induction false} AttemptKeepsLegal(c: Contract, seed: string, s: MachineState, req: Request, now: int)
    requires LegalLog(c, s.log)
    ensures var attempted := Attempt(c, seed, s, req, now);
            && LegalLog(c, attempted.after.log)
            && attempted.result != Failure(HistoryConflict)
            && (attempted.result.Failure? ==> attempted.after.log == s.log)
            && (attempted.result.Success? ==>
                  && attempted.after.log == s.log + [attempted.result.value]
                  && attempted.result.value.decisionId == req.decisionId
                  && ForDecision(attempted.after.log, req.decisionId)
                       == ForDecision(s.log, req.decisionId) + [attempted.result.value]
                  && CurrentState(c, attempted.after.log, req.decisionId) == req.toState)
            && forall other: string :: other != req.decisionId ==>
                 ForDecision(attempted.after.log, other) == ForDecision(s.log, other)
  {
    AttemptRecordsOrNot(c, seed, s, req, now);
    var result := Attempt(c, seed, s, req, now).result;
    if result.Success? {
      LegalStepAdvances(c, s.log, result.value);
    }
  }

  lemma {:induction false} AttemptExtends(
      c: Contract, seed: string, s: MachineState, req: Request, now: int, decisionId: string)
    requires LegalLog(c, s.log)
    ensures LegalLog(c, Attempt(c, seed, s, req, now).after.log)
    ensures ForDecision(s.log, decisionId) <= ForDecision(Attempt(c, seed, s, req, now).after.log, decisionId)
  {
    AttemptKeepsLegal(c, seed, s, req, now);
  }

  /** Histories only ever grow at their end. */
  lemma {:induction false} HistoryGrows(
      c: Contract, seed: string, s: MachineState, requests: seq<Timed>, decisionId: string)
    requires LegalLog(c, s.log)
    ensures ForDecision(s.log, decisionId) <= ForDecision(Run(c, seed, s, requests).log, decisionId)
    decreases |requests|
  {
    if requests != [] {
      AttemptExtends(c, seed, s, requests[0].request, requests[0].now, decisionId);
      HistoryGrows(c, seed, Attempt(c, seed, s, requests[0].request, requests[0].now).after, requests[1..], decisionId);
    }
  }

  /** Over any interleaving of successful and refused requests on any decisions, every decision's history is a
      walk of the declared graph. */
  lemma {:induction false} RunsWalk(c: Contract, seed: string, s: MachineState, requests: seq<Timed>)
    requires LegalLog(c, s.log)
    ensures LegalLog(c, Run(c, seed, s, requests).log)
    decreases |requests|
  {
    if requests != [] {
      AttemptExtends(c, seed, s, requests[0].request, requests[0].now, "");
      RunsWalk(c, seed, Attempt(c, seed, s, requests[0].request, requests[0].now).after, requests[1..]);
    }
  }

  /** A recorded transition says what was asked, by whom, and under which contract. */
  lemma {:induction false} RecordedAsAsked(c: Contract, seed: string, s: MachineState, req: Request, now: int)
    requires LegalLog(c, s.log) && Attempt(c, seed, s, req, now).result.Success?
    ensures var t := Attempt(c, seed, s, req, now).result.value;
            && t.decisionId == req.decisionId && t.toState == req.toState && t.actor == req.actor
            && t.reasonCode == req.reasonCode && t.successor == req.successor && t.note == req.note
            && t.recordedAt == now && t.contractId == c.contractId && t.contractVersion == c.version
            && t.fromState == Some(CurrentState(c, s.log, req.decisionId))
            && t.sequence == |ForDecision(s.log, req.decisionId)| + 1
  {
    AttemptKeepsLegal(c, seed, s, req, now);
  }

  /** Every logged transition carries an identifier already issued, and no two carry the same. */
  ghost predicate IdsDistinct(seed: string, count: nat, log: seq<Transition>) {
    && (forall i :: 0 <= i < |log| ==> IssuedBefore(TXN, seed, count, log[i].transitionId))
    && (forall i, j :: 0 <= i < j < |log| ==> log[i].transitionId != log[j].transitionId)
  }

  lemma {:induction false} IssueKeepsIdsDistinct(seed: string, count: nat, log: seq<Transition>)
    requires IdsDistinct(seed, count, log)
    ensures IdsDistinct(seed, count + 1, log)
    ensures forall i :: 0 <= i < |log| ==> log[i].transitionId != Identifier(TXN, seed, count + 1)
  {
    forall i | 0 <= i < |log|
      ensures IssuedBefore(TXN, seed, count + 1, log[i].transitionId)
      ensures log[i].transitionId != Identifier(TXN, seed, count + 1)
    {
      IssuedStays(TXN, seed, count, log[i].transitionId);
      IssuedIsNotNext(TXN, seed, count, log[i].transitionId);
    }
  }

  lemma {:induction false} AppendKeepsIdsDistinct(seed: string, count: nat, log: seq<Transition>, t: Transition)
    requires IdsDistinct(seed, count, log) && t.transitionId == Identifier(TXN, seed, count + 1)
    ensures IdsDistinct(seed, count + 1, log + [t])
  {
    IssueKeepsIdsDistinct(seed, count, log);
    assert IssuedBefore(TXN, seed, count + 1, t.transitionId);
  }

  lemma {:induction false} AttemptKeepsIdsDistinct(c: Contract, seed: string, s: MachineState, req: Request, now: int)
    requires IdsDistinct(seed, Issued(s.counters, TXN), s.log)
    ensures var after := Attempt(c, seed, s, req, now).after;
            IdsDistinct(seed, Issued(after.counters, TXN), after.log)
  {
    var next := Issued(s.counters, TXN) + 1;
    IssueKeepsIdsDistinct(seed, next - 1, s.log);
    var t := Build(c, s.log, Identifier(TXN, seed, next), req, now);
    AppendKeepsIdsDistinct(seed, next - 1, s.log, t);
  }

  /** No run ever logs two transitions under one identifier. */
  lemma {:induction false} TransitionIdsDistinct(c: Contract, seed: string, s: MachineState, requests: seq<Timed>)
    requires IdsDistinct(seed, Issued(s.counters, TXN), s.log)
    ensures var after := Run(c, seed, s, requests);
            IdsDistinct(seed, Issued(after.counters, TXN), after.log)
    decreases |requests|
  {
    if requests != [] {
      AttemptKeepsIdsDistinct(c, seed, s, requests[0].request, requests[0].now);
      TransitionIdsDistinct(c, seed, Attempt(c, seed, s, requests[0].request, requests[0].now).after, requests[1..]);
    }
  }

  // ---- Projection ------------------------------------------------------------------------

  /** Steps through a history from a state, insisting that each transition starts where the walk stands. */
  function Replay(from: LifecycleState, history: seq<Transition>): Option<LifecycleState>
    decreases |history|
  {
    if history == [] then Some(from)
    else if history[0].fromState == Some(from) then Replay(history[0].toState, history[1..])
    else None
  }

  lemma {:induction false} ReplayExtend(from: LifecycleState, history: seq<Transition>, t: Transition)
    requires Replay(from, history).Some?
    ensures Replay(from, history + [t]) == if t.fromState == Replay(from, history) then Some(t.toState) else None
    decreases |history|
  {
    if history == [] {
      assert [t][1..] == [];
    } else {
      assert (history + [t])[1..] == history[1..] + [t];
      ReplayExtend(history[0].toState, history[1..], t);
    }
  }

  lemma {:induction false} WalkReplays(c: Contract, history: seq<Transition>, k: nat)
    requires Walk(c, history) && k <= |history|
    ensures Replay(c.lifecycle.initialState, history[..k]) == Some(StateBefore(c, history, k))
  {
    if 0 < k {
      WalkReplays(c, history, k - 1);
      WalkPrefix(c, history, k - 1);
      assert history[..k] == history[..k - 1] + [history[k - 1]];
      ReplayExtend(c.lifecycle.initialState, history[..k - 1], history[k - 1]);
    }
  }

  lemma {:induction false} FilterUpTo(history: seq<Transition>, k: int)
    requires Numbered(history)
    ensures Filter(UpTo(k), history) == history[..if k < 0 then 0 else if k < |history| then k else |history|]
  {
    if history != [] {
      var last := |history| - 1;
      FilterUpTo(history[..last], k);
      assert history == history[..last] + [history[last]];
      FilterConcat(UpTo(k), history[..last], [history[last]]);
      assert [history[last]][1..] == [];
    }
  }

  /** The state as of a position is what replaying the history up to it yields, and the replay never sticks. */
  lemma {:induction false} StateAtIsReplay(c: Contract, history: seq<Transition>, k: nat)
    requires Walk(c, history)
    ensures Some(StateAt(history, k, c.lifecycle.initialState))
         == Replay(c.lifecycle.initialState, history[..if k < |history| then k else |history|])
  {
    var n := if k < |history| then k else |history|;
    WalkNumbered(c, history);
    FilterUpTo(history, k);
    WalkReplays(c, history, n);
    NumberedSorted(history[..n]);
  }

  /** What a decision's state was is never rewritten: after any further run, the state as of a recorded position
      is still what the current-state query returned when that position was the last. */
  lemma {:induction false} PastNeverRewritten(
      c: Contract, seed: string, s: MachineState, requests: seq<Timed>, decisionId: string)
    requires LegalLog(c, s.log)
    ensures var later := ForDecision(Run(c, seed, s, requests).log, decisionId);
            StateAt(later, |ForDecision(s.log, decisionId)|, c.lifecycle.initialState)
              == CurrentState(c, s.log, decisionId)
  {
    RunsWalk(c, seed, s, requests);
    HistoryGrows(c, seed, s, requests, decisionId);
    var recorded, later := ForDecision(s.log, decisionId), ForDecision(Run(c, seed, s, requests).log, decisionId);
    CurrentStateIsLast(c, s.log, decisionId);
    StateAtIsReplay(c, later, |recorded|);
    WalkReplays(c, later, |recorded|);
    assert later[..|recorded|] == recorded;
  }

  // ---- Termination -----------------------------------------------------------------------

  /** A measure of states that every declared transition lowers. */
  ghost predicate Ranks(lifecycle: LifecycleSection, rank: LifecycleState -> nat) {
    forall rule <- lifecycle.transitions :: rank(rule.to) < rank(rule.from)
  }

  lemma LegalStepDescends(c: Contract, rank: LifecycleState -> nat, from: LifecycleState, t: Transition)
    requires Ranks(c.lifecycle, rank) && LegalStep(c, from, t)
    ensures rank(t.toState) < rank(from)
  {
  }

  lemma {:induction false} WalkBounded(c: Contract, rank: LifecycleState -> nat, history: seq<Transition>, k: nat)
    requires Ranks(c.lifecycle, rank) && Walk(c, history) && k <= |history|
    ensures k + rank(StateBefore(c, history, k)) <= rank(c.lifecycle.initialState)
  {
    if 0 < k {
      WalkBounded(c, rank, history, k - 1);
      WalkPrefix(c, history, k - 1);
      LegalStepDescends(c, rank, StateBefore(c, history, k - 1), history[k - 1]);
    }
  }

  /** Under a ranked contract no run, however long, records more transitions for a decision than the rank of
      the initial state allows. */
  lemma {:induction false} LifecycleTerminates(
      c: Contract, rank: LifecycleState -> nat, seed: string, s: MachineState, requests: seq<Timed>, decisionId: string)
    requires Ranks(c.lifecycle, rank) && LegalLog(c, s.log)
    ensures |ForDecision(Run(c, seed, s, requests).log, decisionId)| <= rank(c.lifecycle.initialState)
  {
    RunsWalk(c, seed, s, requests);
    var history := ForDecision(Run(c, seed, s, requests).log, decisionId);
    WalkBounded(c, rank, history, |history|);
  }
}
