/** How the validator's reachability test relates to real paths from the initial state, and the v1.0 lifecycle. */
module LifecycleReachability {
  import opened Collections
  import opened Domain
  import opened Identifiers
  import opened Lifecycle
  import opened LifecycleLog
  import opened LifecycleRuns
  import opened LifecycleCoherence

  predicate Edge(lc: LifecycleSection, from: LifecycleState, to: LifecycleState) {
    exists r <- lc.transitions :: r.from == from && r.to == to
  }

  /** A sequence of states each joined to the next by a declared edge. */
  predicate Trail(lc: LifecycleSection, path: seq<LifecycleState>) {
    path != [] && forall i :: 0 <= i < |path| - 1 ==> Edge(lc, path[i], path[i + 1])
  }

  ghost predicate Reachable(lc: LifecycleSection, s: LifecycleState) {
    exists path: seq<LifecycleState> :: Trail(lc, path) && path[0] == lc.initialState && path[|path| - 1] == s
  }

  ghost predicate NoCycle(lc: LifecycleSection) {
    forall path: seq<LifecycleState> :: Trail(lc, path) && |path| >= 2 ==> path[0] != path[|path| - 1]
  }

  predicate SourcesDeclared(lc: LifecycleSection) { forall r <- lc.transitions :: r.from in lc.states }

  const ALL_STATES: set<LifecycleState> := {PROPOSED, ACCEPTED, REJECTED, SUPERSEDED}

  predicate Distinct(path: seq<LifecycleState>) {
    forall i, j :: 0 <= i < j < |path| ==> path[i] != path[j]
  }

  function Visited(path: seq<LifecycleState>): (states: set<LifecycleState>)
    ensures forall s :: s in states <==> s in path
  {
    if path == [] then {} else Visited(path[..|path| - 1]) + {path[|path| - 1]}
  }

  lemma {:induction false} DistinctCount(path: seq<LifecycleState>)
    requires Distinct(path)
    ensures |Visited(path)| == |path|
  {
    if path != [] {
      var last := |path| - 1;
      DistinctCount(path[..last]);
      assert path[last] !in path[..last];
    }
  }

  lemma {:induction false} DistinctIsShort(path: seq<LifecycleState>)
    requires Distinct(path)
    ensures |path| <= 4
  {
    DistinctCount(path);
    forall s: LifecycleState ensures s in ALL_STATES { AllStates(s); }
    SubsetSize(Visited(path), ALL_STATES);
  }

  lemma AllStates(s: LifecycleState)
    ensures s in ALL_STATES
  {
    match s
    case PROPOSED =>
    case ACCEPTED =>
    case REJECTED =>
    case SUPERSEDED =>
  }

  lemma {:induction false} SubsetSize<T>(a: set<T>, b: set<T>)
    requires a <= b
    ensures |a| <= |b|
  {
    if a != {} {
      var x :| x in a;
      SubsetSize(a - {x}, b - {x});
    }
  }

  lemma RepeatIsCycle(lc: LifecycleSection, path: seq<LifecycleState>, j: nat)
    requires Trail(lc, path) && 0 < j < |path| && path[0] == path[j]
    ensures !NoCycle(lc)
  {
    assert Trail(lc, path[..j + 1]);
  }

  /** Walks predecessors back from a trail's start until the initial state; a repeated state would be a cycle. */
  lemma {:induction false} TraceBack(lc: LifecycleSection, path: seq<LifecycleState>)
    requires Coherent(lc) && SourcesDeclared(lc) && NoCycle(lc)
    requires Trail(lc, path) && Distinct(path) && path[0] in lc.states
    ensures Reachable(lc, path[|path| - 1])
    decreases 4 - |path|
  {
    if path[0] != lc.initialState {
      assert InitialOrTarget(lc, path[0]);
      var r :| r in lc.transitions && r.to == path[0];
      var longer := [r.from] + path;
      assert Edge(lc, r.from, path[0]);
      assert Trail(lc, longer);
      if r.from in path {
        var i :| 0 <= i < |path| && path[i] == r.from;
        RepeatIsCycle(lc, longer, i + 1);
      }
      DistinctIsShort(longer);
      TraceBack(lc, longer);
    }
  }

  /** In a coherent lifecycle no trail goes on from a terminal state. */
  lemma {:induction false} TerminalEndsTrails(lc: LifecycleSection, path: seq<LifecycleState>)
    requires Coherent(lc) && Trail(lc, path)
    ensures forall i :: 0 <= i < |path| - 1 ==> path[i] !in lc.terminalStates
  {
    forall i | 0 <= i < |path| - 1 ensures HasOutbound(lc, path[i]) {
      assert Edge(lc, path[i], path[i + 1]);
    }
  }

  /** Passing the validator means what it says, that every declared state can be reached from the initial one,
      provided the declared edges have no cycle and start only at declared states. */
  lemma {:induction false} CoherentAcyclicReachable(lc: LifecycleSection, s: LifecycleState)
    requires Coherent(lc) && SourcesDeclared(lc) && NoCycle(lc) && s in lc.states
    ensures Reachable(lc, s)
  {
    TraceBack(lc, [s]);
  }

  lemma {:induction false} TrailStuckAt(lc: LifecycleSection, region: set<LifecycleState>, path: seq<LifecycleState>)
    requires Trail(lc, path) && path[0] !in region
    requires forall from, to :: Edge(lc, from, to) && from !in region ==> to !in region
    ensures path[|path| - 1] !in region
  {
    if |path| > 1 {
      var shorter := path[..|path| - 1];
      assert Trail(lc, shorter);
      TrailStuckAt(lc, region, shorter);
      assert Edge(lc, path[|path| - 2], path[|path| - 1]);
    }
  }

  function ReviewRule(id: string, from: LifecycleState, to: LifecycleState): TransitionRule {
    TransitionRule(id, from, to, true, true, true, true, false)
  }

  function SupersedeRule(id: string, from: LifecycleState): TransitionRule {
    TransitionRule(id, from, SUPERSEDED, false, true, false, true, true)
  }

  /** A coherent contract with a cycle: each of two states vouches for the other, and neither can be reached. */
  lemma CyclesPassTheValidator() returns (lc: LifecycleSection)
    ensures Coherent(lc) && SourcesDeclared(lc) && ACCEPTED in lc.states && !Reachable(lc, ACCEPTED)
  {
    lc := LifecycleSection([PROPOSED, ACCEPTED, REJECTED], PROPOSED, [],
                           [ReviewRule("a", ACCEPTED, REJECTED), ReviewRule("b", REJECTED, ACCEPTED)]);
    assert lc.transitions[0].to == REJECTED && lc.transitions[1].to == ACCEPTED;
    forall path: seq<LifecycleState> | Trail(lc, path) && path[0] == lc.initialState
      ensures path[|path| - 1] != ACCEPTED
    {
      TrailStuckAt(lc, {ACCEPTED, REJECTED}, path);
    }
  }

  /** A coherent contract without a cycle, whose only edge starts at a state it does not declare. */
  lemma UndeclaredSourcesPassTheValidator() returns (lc: LifecycleSection)
    ensures Coherent(lc) && NoCycle(lc) && SUPERSEDED in lc.states && !Reachable(lc, SUPERSEDED)
  {
    lc := LifecycleSection([PROPOSED, SUPERSEDED], PROPOSED, [SUPERSEDED], [SupersedeRule("a", ACCEPTED)]);
    assert lc.transitions[0].to == SUPERSEDED;
    assert lc.states[1] == SUPERSEDED;
    forall path: seq<LifecycleState> | Trail(lc, path) && path[0] == lc.initialState
      ensures path[|path| - 1] != SUPERSEDED
    {
      TrailStuckAt(lc, {SUPERSEDED, ACCEPTED}, path);
    }
    RankedHasNoCycle(lc, (s: LifecycleState) => if s.ACCEPTED? then 1 else 0);
  }

  lemma {:induction false} TrailDescends(lc: LifecycleSection, rank: LifecycleState -> nat, path: seq<LifecycleState>)
    requires Ranks(lc, rank) && Trail(lc, path)
    ensures rank(path[|path| - 1]) + |path| - 1 <= rank(path[0])
  {
    if |path| > 1 {
      var shorter := path[..|path| - 1];
      assert Trail(lc, shorter);
      TrailDescends(lc, rank, shorter);
      assert Edge(lc, path[|path| - 2], path[|path| - 1]);
    }
  }

  lemma {:induction false} RankedHasNoCycle(lc: LifecycleSection, rank: LifecycleState -> nat)
    requires Ranks(lc, rank)
    ensures NoCycle(lc)
  {
    forall path: seq<LifecycleState> | Trail(lc, path) && |path| >= 2 ensures path[0] != path[|path| - 1] {
      TrailDescends(lc, rank, path);
    }
  }

  /** Nothing enters a region of states from outside it. */
  predicate Sealed(lc: LifecycleSection, region: set<LifecycleState>) {
    lc.initialState !in region && forall r <- lc.transitions :: r.to in region ==> r.from in region
  }

  lemma ReachableExtends(lc: LifecycleSection, r: TransitionRule)
    requires r in lc.transitions && Reachable(lc, r.from)
    ensures Reachable(lc, r.to)
  {
    var path: seq<LifecycleState> :| Trail(lc, path) && path[0] == lc.initialState && path[|path| - 1] == r.from;
    assert Edge(lc, r.from, r.to);
    assert Trail(lc, path + [r.to]);
  }

  /** Exactly when a contract's declared states can all be reached: no declared state lies in a sealed region. */
  lemma {:induction false} AllReachableIffUnsealed(lc: LifecycleSection)
    ensures (forall s <- lc.states :: Reachable(lc, s))
            <==> forall region: set<LifecycleState> :: Sealed(lc, region) ==> forall s <- lc.states :: s !in region
  {
    forall region: set<LifecycleState>, s: LifecycleState | Sealed(lc, region) && s in region
      ensures !Reachable(lc, s)
    {
      forall path: seq<LifecycleState> | Trail(lc, path) && path[0] == lc.initialState
        ensures path[|path| - 1] != s
      {
        TrailStuckAt(lc, region, path);
      }
    }
    var unreachable := set s <- ALL_STATES | !Reachable(lc, s);
    assert Sealed(lc, unreachable) by {
      assert Trail(lc, [lc.initialState]);
      assert Reachable(lc, lc.initialState);
      forall r <- lc.transitions | r.to in unreachable ensures r.from in unreachable {
        if Reachable(lc, r.from) {
          ReachableExtends(lc, r);
        }
      }
    }
    forall s: LifecycleState ensures s in unreachable <==> !Reachable(lc, s) {
      AllStates(s);
    }
  }

  /** Under a coherent contract the record's own validators add nothing for the machine to fear: a request that
      passes the machine's checks is recorded unless it names a successor it may not name, or lacks identity. */
  lemma {:induction false} CoherentRecordsAreValid(c: Contract, seed: string, s: MachineState, req: Request, now: int)
    requires Coherent(c.lifecycle) && Judge(c, s.log, req).None?
    ensures Attempt(c, seed, s, req, now).result == Failure(RecordInvalid)
            <==> req.decisionId == "" || c.contractId == "" || (Named(req.successor) && !req.toState.SUPERSEDED?)
  {
    var n := Issued(Issue(s.counters, TXN), TXN);
    IdentifiersDistinct(TXN, seed, n, n);
    var from := CurrentState(c, s.log, req.decisionId);
    var rule := RuleFor(c.lifecycle.transitions, from, req.toState).value;
    assert rule in c.lifecycle.transitions;
  }

  // ---- The v1.0 lifecycle ----------------------------------------------------------------

  const V1: LifecycleSection := LifecycleSection(
    [PROPOSED, ACCEPTED, REJECTED, SUPERSEDED], PROPOSED, [REJECTED, SUPERSEDED],
    [ReviewRule("ET-LC-001", PROPOSED, ACCEPTED), ReviewRule("ET-LC-002", PROPOSED, REJECTED),
     SupersedeRule("ET-LC-003", ACCEPTED)])

  function V1Rank(s: LifecycleState): nat {
    match s
    case PROPOSED => 2
    case ACCEPTED => 1
    case _ => 0
  }

  lemma V1PassesValidator()
    ensures Coherent(V1) && SourcesDeclared(V1)
  {
    var rules, states := V1.transitions, V1.states;
    assert rules[0].to == ACCEPTED && rules[1].to == REJECTED && rules[2].to == SUPERSEDED;
    assert states[0] == PROPOSED && states[1] == ACCEPTED;
    assert forall r <- rules :: r == rules[0] || r == rules[1] || r == rules[2];
  }

  lemma V1Ranked()
    ensures Ranks(V1, V1Rank)
  {
    var rules := V1.transitions;
    assert forall r <- rules :: r == rules[0] || r == rules[1] || r == rules[2];
  }

  /** The v1.0 lifecycle passes the validator, has no cycle, and reaches every state it declares. */
  lemma {:induction false} V1Coherent()
    ensures Coherent(V1) && SourcesDeclared(V1) && NoCycle(V1)
    ensures forall s <- V1.states :: Reachable(V1, s)
  {
    V1PassesValidator();
    V1Ranked();
    RankedHasNoCycle(V1, V1Rank);
    forall s <- V1.states ensures Reachable(V1, s) {
      CoherentAcyclicReachable(V1, s);
    }
  }

  function Targets(history: seq<Transition>): seq<LifecycleState> {
    seq(|history|, i requires 0 <= i < |history| => history[i].toState)
  }

  /** Left as proposed, accepted, rejected, or accepted and then superseded. */
  predicate V1Targets(targets: seq<LifecycleState>) {
    targets == [] || targets == [ACCEPTED] || targets == [REJECTED] || targets == [ACCEPTED, SUPERSEDED]
  }

  lemma V1Steps(c: Contract, from: LifecycleState, t: Transition)
    requires c.lifecycle == V1 && LegalStep(c, from, t)
    ensures (from == PROPOSED && t.toState == ACCEPTED) || (from == PROPOSED && t.toState == REJECTED)
         || (from == ACCEPTED && t.toState == SUPERSEDED)
  {
  }

  lemma {:induction false} V1Walks(c: Contract, history: seq<Transition>)
    requires c.lifecycle == V1 && Walk(c, history) && |history| <= 2
    ensures V1Targets(Targets(history))
  {
    if 0 < |history| {
      WalkPrefix(c, history, 0);
      V1Steps(c, PROPOSED, history[0]);
    }
    if 1 < |history| {
      WalkPrefix(c, history, 1);
      V1Steps(c, history[0].toState, history[1]);
      assert Targets(history) == [history[0].toState, history[1].toState];
    } else if 0 < |history| {
      assert Targets(history) == [history[0].toState];
    } else {
      assert Targets(history) == [];
    }
  }

  /** Every v1.0 run gives each decision one of four histories, and a decision is superseded exactly when it
      was accepted and then superseded. */
  lemma {:induction false} V1Histories(
      c: Contract, seed: string, s: MachineState, requests: seq<Timed>, decisionId: string)
    requires c.lifecycle == V1 && LegalLog(c, s.log)
    ensures var log := Run(c, seed, s, requests).log;
            var targets := Targets(ForDecision(log, decisionId));
            && V1Targets(targets)
            && CurrentState(c, log, decisionId) == (if targets == [] then PROPOSED else targets[|targets| - 1])
            && (CurrentState(c, log, decisionId) == SUPERSEDED <==> targets == [ACCEPTED, SUPERSEDED])
  {
    V1Ranked();
    RunsWalk(c, seed, s, requests);
    LifecycleTerminates(c, V1Rank, seed, s, requests, decisionId);
    var log := Run(c, seed, s, requests).log;
    CurrentStateIsLast(c, log, decisionId);
    V1Walks(c, ForDecision(log, decisionId));
  }

  /** The log alone refuses nothing on grounds of legality: a transition the contract does not declare, from a
      state the decision is not in, is accepted at the persistence boundary. */
  lemma LogAcceptsUndeclared(c: Contract, actor: Actor) returns (t: Transition)
    requires c.lifecycle == V1 && c.contractId != ""
    ensures Appendable([], t) && ValidTransition(t) && !LegalStep(c, CurrentState(c, [], t.decisionId), t)
    ensures RuleFor(V1.transitions, REJECTED, t.toState).None? && t.fromState == Some(REJECTED)
    ensures !LegalLog(c, [] + [t])
  {
    t := Transition("txn", "dec", 1, Some(REJECTED), SUPERSEDED, actor, SUPERSESSION_REPLACED, 0,
                    c.contractId, c.version, Some("next"), None);
    EmptyLogLegal(c);
    AppendAcceptsExactlyNext([], t);
    AppendLegalIff(c, [], t);
  }
}
