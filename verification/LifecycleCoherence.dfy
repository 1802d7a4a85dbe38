/** The validator's coherence checks on a declared lifecycle, against real reachability in the declared graph. */
module LifecycleCoherence {
  import opened Lifecycle

  // ---- What the validator checks ---------------------------------------------------------

  datatype Finding =
    | TerminalHasOutbound(terminal: LifecycleState)
    | DeclaredButUnreachable(state: LifecycleState)
    | SupersessionWithoutSuccessor(id: string)
    | ReviewWithoutAttribution(id: string)

  datatype Check = Check(holds: bool, finding: Finding)

  predicate HasOutbound(lc: LifecycleSection, s: LifecycleState) { exists r <- lc.transitions :: r.from == s }

  /** The validator's notion of a reachable state: the initial one, or the target of some declared edge. */
  predicate InitialOrTarget(lc: LifecycleSection, s: LifecycleState) {
    s == lc.initialState || exists r <- lc.transitions :: r.to == s
  }

  predicate Attributed(r: TransitionRule) { r.requiresHumanReview && r.requiresActor && r.requiresRole }

  function TerminalChecks(lc: LifecycleSection, terminals: seq<LifecycleState>): seq<Check> {
    if terminals == [] then []
    else TerminalChecks(lc, terminals[..|terminals| - 1]) +
         (var t := terminals[|terminals| - 1]; [Check(!HasOutbound(lc, t), TerminalHasOutbound(t))])
  }

  function StateChecks(lc: LifecycleSection, states: seq<LifecycleState>): seq<Check> {
    if states == [] then []
    else StateChecks(lc, states[..|states| - 1]) +
         (var s := states[|states| - 1]; [Check(InitialOrTarget(lc, s), DeclaredButUnreachable(s))])
  }

  function RuleChecks(r: TransitionRule): seq<Check> {
    (if r.to.SUPERSEDED? then [Check(r.requiresSuccessor, SupersessionWithoutSuccessor(r.id))] else []) +
    (if r.to.ACCEPTED? || r.to.REJECTED? then [Check(Attributed(r), ReviewWithoutAttribution(r.id))] else [])
  }

  function TransitionChecks(rules: seq<TransitionRule>): seq<Check> {
    if rules == [] then [] else TransitionChecks(rules[..|rules| - 1]) + RuleChecks(rules[|rules| - 1])
  }

  function ChecksOf(lc: LifecycleSection): seq<Check> {
    TerminalChecks(lc, lc.terminalStates) + StateChecks(lc, lc.states) + TransitionChecks(lc.transitions)
  }

  function ChecksOfAll(lcs: seq<LifecycleSection>): seq<Check> {
    if lcs == [] then [] else ChecksOfAll(lcs[..|lcs| - 1]) + ChecksOf(lcs[|lcs| - 1])
  }

  function Failures(checks: seq<Check>): seq<Finding> {
    if checks == [] then []
    else Failures(checks[..|checks| - 1]) +
         if checks[|checks| - 1].holds then [] else [checks[|checks| - 1].finding]
  }

  lemma {:induction false} FailuresConcat(xs: seq<Check>, ys: seq<Check>)
    ensures Failures(xs + ys) == Failures(xs) + Failures(ys)
  {
    if ys == [] {
      assert xs + ys == xs;
    } else {
      var last := |ys| - 1;
      assert (xs + ys)[..|xs + ys| - 1] == xs + ys[..last];
      FailuresConcat(xs, ys[..last]);
    }
  }

  lemma {:induction false} NoFailures(checks: seq<Check>)
    ensures Failures(checks) == [] <==> forall check <- checks :: check.holds
  {
    if checks != [] {
      var last := |checks| - 1;
      NoFailures(checks[..last]);
      assert checks == checks[..last] + [checks[last]];
    }
  }

  /** The accumulated findings of a sequence of checks. */
  class ValidationReport {
    var errors: seq<Finding>
    var checksRun: nat

    constructor ()
      ensures Shows([])
    {
      errors, checksRun := [], 0;
    }

    ghost predicate Shows(checks: seq<Check>)
      reads this
    {
      errors == Failures(checks) && checksRun == |checks|
    }

    predicate Ok()
      reads this
    {
      errors == []
    }

    method Record(condition: bool, finding: Finding, ghost checks: seq<Check>)
      requires Shows(checks)
      modifies this
      ensures Shows(checks + [Check(condition, finding)])
    {
      FailuresConcat(checks, [Check(condition, finding)]);
      assert [Check(condition, finding)][..0] == [];
      checksRun := checksRun + 1;
      if !condition {
        errors := errors + [finding];
      }
    }

    method Merge(other: ValidationReport, ghost mine: seq<Check>, ghost theirs: seq<Check>)
      requires Shows(mine) && other.Shows(theirs)
      modifies this
      ensures Shows(mine + if other == this then mine else theirs)
    {
      FailuresConcat(mine, if other == this then mine else theirs);
      errors, checksRun := errors + other.errors, checksRun + other.checksRun;
    }
  }

  method ValidateTerminals(report: ValidationReport, lc: LifecycleSection, ghost done: seq<Check>)
    requires report.Shows(done)
    modifies report
    ensures report.Shows(done + TerminalChecks(lc, lc.terminalStates))
  {
    assert done + [] == done;
    var terminals := lc.terminalStates;
    for i := 0 to |terminals|
      invariant report.Shows(done + TerminalChecks(lc, terminals[..i]))
    {
      var t := terminals[i];
      report.Record(!HasOutbound(lc, t), TerminalHasOutbound(t), done + TerminalChecks(lc, terminals[..i]));
      assert terminals[..i + 1][..i] == terminals[..i];
      assert done + TerminalChecks(lc, terminals[..i]) + [Check(!HasOutbound(lc, t), TerminalHasOutbound(t))]
          == done + TerminalChecks(lc, terminals[..i + 1]);
    }
    assert terminals[..|terminals|] == terminals;
  }

  method ValidateStates(report: ValidationReport, lc: LifecycleSection, ghost done: seq<Check>)
    requires report.Shows(done)
    modifies report
    ensures report.Shows(done + StateChecks(lc, lc.states))
  {
    assert done + [] == done;
    var states := lc.states;
    for i := 0 to |states|
      invariant report.Shows(done + StateChecks(lc, states[..i]))
    {
      var s := states[i];
      report.Record(InitialOrTarget(lc, s), DeclaredButUnreachable(s), done + StateChecks(lc, states[..i]));
      assert states[..i + 1][..i] == states[..i];
      assert done + StateChecks(lc, states[..i]) + [Check(InitialOrTarget(lc, s), DeclaredButUnreachable(s))]
          == done + StateChecks(lc, states[..i + 1]);
    }
    assert states[..|states|] == states;
  }

  method ValidateRules(report: ValidationReport, rules: seq<TransitionRule>, ghost done: seq<Check>)
    requires report.Shows(done)
    modifies report
    ensures report.Shows(done + TransitionChecks(rules))
  {
    assert done + [] == done;
    for i := 0 to |rules|
      invariant report.Shows(done + TransitionChecks(rules[..i]))
    {
      ghost var before := done + TransitionChecks(rules[..i]);
      var r := rules[i];
      assert before + [] == before;
      if r.to.SUPERSEDED? {
        report.Record(r.requiresSuccessor, SupersessionWithoutSuccessor(r.id), before);
      }
      if r.to.ACCEPTED? || r.to.REJECTED? {
        report.Record(Attributed(r), ReviewWithoutAttribution(r.id), before);
      }
      assert report.Shows(before + RuleChecks(r));
      assert rules[..i + 1][..i] == rules[..i];
      assert before + RuleChecks(r) == done + TransitionChecks(rules[..i + 1]);
    }
    assert rules[..|rules|] == rules;
  }

  method ValidateSection(report: ValidationReport, lc: LifecycleSection, ghost done: seq<Check>)
    requires report.Shows(done)
    modifies report
    ensures report.Shows(done + ChecksOf(lc))
  {
    ValidateTerminals(report, lc, done);
    ValidateStates(report, lc, done + TerminalChecks(lc, lc.terminalStates));
    ValidateRules(report, lc.transitions, done + TerminalChecks(lc, lc.terminalStates) + StateChecks(lc, lc.states));
    assert done + TerminalChecks(lc, lc.terminalStates) + StateChecks(lc, lc.states) + TransitionChecks(lc.transitions)
        == done + ChecksOf(lc);
  }

  /** Runs every coherence check on every registered contract's lifecycle. */
  method ValidateLifecycleCoherence(lcs: seq<LifecycleSection>) returns (report: ValidationReport)
    ensures fresh(report) && report.Shows(ChecksOfAll(lcs))
    ensures report.Ok() <==> forall lc <- lcs :: Coherent(lc)
  {
    report := new ValidationReport();
    for k := 0 to |lcs|
      invariant fresh(report) && report.Shows(ChecksOfAll(lcs[..k]))
    {
      ValidateSection(report, lcs[k], ChecksOfAll(lcs[..k]));
      assert lcs[..k + 1][..k] == lcs[..k];
    }
    assert lcs[..|lcs|] == lcs;
    ReportClearIffCoherent(lcs);
  }

  // ---- What passing means ----------------------------------------------------------------

  /** The lifecycle the validator means to accept. */
  predicate Coherent(lc: LifecycleSection) {
    && (forall t <- lc.terminalStates :: !HasOutbound(lc, t))
    && (forall s <- lc.states :: InitialOrTarget(lc, s))
    && (forall r <- lc.transitions :: r.to.SUPERSEDED? ==> r.requiresSuccessor)
    && (forall r <- lc.transitions :: r.to.ACCEPTED? || r.to.REJECTED? ==> Attributed(r))
  }

  lemma {:induction false} TerminalsClear(lc: LifecycleSection, terminals: seq<LifecycleState>)
    ensures (forall check <- TerminalChecks(lc, terminals) :: check.holds) <==>
              forall t <- terminals :: !HasOutbound(lc, t)
  {
    if terminals != [] {
      var last := |terminals| - 1;
      TerminalsClear(lc, terminals[..last]);
      assert terminals == terminals[..last] + [terminals[last]];
      assert Check(!HasOutbound(lc, terminals[last]), TerminalHasOutbound(terminals[last]))
        in TerminalChecks(lc, terminals);
    }
  }

  lemma {:induction false} StatesClear(lc: LifecycleSection, states: seq<LifecycleState>)
    ensures (forall check <- StateChecks(lc, states) :: check.holds) <==> forall s <- states :: InitialOrTarget(lc, s)
  {
    if states != [] {
      var last := |states| - 1;
      StatesClear(lc, states[..last]);
      assert states == states[..last] + [states[last]];
      assert Check(InitialOrTarget(lc, states[last]), DeclaredButUnreachable(states[last])) in StateChecks(lc, states);
    }
  }

  lemma {:induction false} RulesClear(rules: seq<TransitionRule>)
    ensures (forall check <- TransitionChecks(rules) :: check.holds)
            <==> forall r <- rules ::
                   (r.to.SUPERSEDED? ==> r.requiresSuccessor) && (r.to.ACCEPTED? || r.to.REJECTED? ==> Attributed(r))
  {
    if rules != [] {
      var last := |rules| - 1;
      var r := rules[last];
      RulesClear(rules[..last]);
      assert rules == rules[..last] + [r];
      if r.to.SUPERSEDED? { assert RuleChecks(r)[0] in TransitionChecks(rules); }
      if r.to.ACCEPTED? || r.to.REJECTED? { assert RuleChecks(r)[0] in TransitionChecks(rules); }
      assert forall check <- RuleChecks(r) :: check in TransitionChecks(rules);
    }
  }

  predicate AllHold(checks: seq<Check>) { forall check <- checks :: check.holds }

  lemma AllHoldConcat(xs: seq<Check>, ys: seq<Check>)
    ensures AllHold(xs + ys) <==> AllHold(xs) && AllHold(ys)
  {
    assert forall check :: check in xs + ys <==> check in xs || check in ys;
  }

  lemma {:induction false} SectionClear(lc: LifecycleSection)
    ensures AllHold(ChecksOf(lc)) <==> Coherent(lc)
  {
    TerminalsClear(lc, lc.terminalStates);
    StatesClear(lc, lc.states);
    RulesClear(lc.transitions);
    AllHoldConcat(TerminalChecks(lc, lc.terminalStates), StateChecks(lc, lc.states));
    AllHoldConcat(TerminalChecks(lc, lc.terminalStates) + StateChecks(lc, lc.states), TransitionChecks(lc.transitions));
  }

  lemma {:induction false} ChecksClear(lcs: seq<LifecycleSection>)
    ensures AllHold(ChecksOfAll(lcs)) <==> forall lc <- lcs :: Coherent(lc)
  {
    if lcs != [] {
      var last := |lcs| - 1;
      ChecksClear(lcs[..last]);
      SectionClear(lcs[last]);
      AllHoldConcat(ChecksOfAll(lcs[..last]), ChecksOf(lcs[last]));
      assert lcs == lcs[..last] + [lcs[last]];
    }
  }

  /** The report is clear exactly when every lifecycle is coherent. */
  lemma {:induction false} ReportClearIffCoherent(lcs: seq<LifecycleSection>)
    ensures Failures(ChecksOfAll(lcs)) == [] <==> forall lc <- lcs :: Coherent(lc)
  {
    NoFailures(ChecksOfAll(lcs));
    ChecksClear(lcs);
  }

  // ---- What each finding means -----------------------------------------------------------

  /** The defect of a lifecycle that each finding reports. */
  ghost predicate Reported(lc: LifecycleSection, finding: Finding) {
    match finding
    case TerminalHasOutbound(t) => t in lc.terminalStates && exists r <- lc.transitions :: r.from == t
    case DeclaredButUnreachable(s) =>
      s in lc.states && s != lc.initialState && forall r <- lc.transitions :: r.to != s
    case SupersessionWithoutSuccessor(id) =>
      exists r <- lc.transitions :: r.id == id && r.to == SUPERSEDED && !r.requiresSuccessor
    case ReviewWithoutAttribution(id) =>
      exists r <- lc.transitions ::
        && r.id == id && (r.to == ACCEPTED || r.to == REJECTED)
        && !(r.requiresHumanReview && r.requiresActor && r.requiresRole)
  }

  lemma {:induction false} FailuresAre(checks: seq<Check>, finding: Finding)
    ensures finding in Failures(checks) <==> Check(false, finding) in checks
  {
    if checks != [] {
      var last := |checks| - 1;
      FailuresAre(checks[..last], finding);
      assert checks == checks[..last] + [checks[last]];
    }
  }

  lemma {:induction false} TerminalChecksAre(lc: LifecycleSection, terminals: seq<LifecycleState>, check: Check)
    ensures check in TerminalChecks(lc, terminals)
            <==> exists t <- terminals :: check == Check(!HasOutbound(lc, t), TerminalHasOutbound(t))
  {
    if terminals != [] {
      var last := |terminals| - 1;
      TerminalChecksAre(lc, terminals[..last], check);
      assert terminals == terminals[..last] + [terminals[last]];
    }
  }

  lemma {:induction false} StateChecksAre(lc: LifecycleSection, states: seq<LifecycleState>, check: Check)
    ensures check in StateChecks(lc, states)
            <==> exists s <- states :: check == Check(InitialOrTarget(lc, s), DeclaredButUnreachable(s))
  {
    if states != [] {
      var last := |states| - 1;
      StateChecksAre(lc, states[..last], check);
      assert states == states[..last] + [states[last]];
    }
  }

  lemma {:induction false} TransitionChecksAre(rules: seq<TransitionRule>, check: Check)
    ensures check in TransitionChecks(rules) <==> exists r <- rules :: check in RuleChecks(r)
  {
    if rules != [] {
      var last := |rules| - 1;
      TransitionChecksAre(rules[..last], check);
      assert rules == rules[..last] + [rules[last]];
    }
  }

  lemma {:induction false} ChecksAre(lc: LifecycleSection, check: Check)
    ensures check in ChecksOf(lc) <==>
              || (exists t <- lc.terminalStates :: check == Check(!HasOutbound(lc, t), TerminalHasOutbound(t)))
              || (exists s <- lc.states :: check == Check(InitialOrTarget(lc, s), DeclaredButUnreachable(s)))
              || exists r <- lc.transitions :: check in RuleChecks(r)
  {
    TerminalChecksAre(lc, lc.terminalStates, check);
    StateChecksAre(lc, lc.states, check);
    TransitionChecksAre(lc.transitions, check);
  }

  lemma {:induction false} RuleFindings(r: TransitionRule, finding: Finding)
    ensures Check(false, finding) in RuleChecks(r) <==>
              || (finding == SupersessionWithoutSuccessor(r.id) && r.to == SUPERSEDED && !r.requiresSuccessor)
              || (finding == ReviewWithoutAttribution(r.id) && (r.to == ACCEPTED || r.to == REJECTED)
                  && !(r.requiresHumanReview && r.requiresActor && r.requiresRole))
  {
  }

  lemma {:induction false} StateFindings(lc: LifecycleSection, finding: Finding)
    requires finding.TerminalHasOutbound? || finding.DeclaredButUnreachable?
    ensures Check(false, finding) in ChecksOf(lc) <==> Reported(lc, finding)
  {
    ChecksAre(lc, Check(false, finding));
    forall r <- lc.transitions ensures Check(false, finding) !in RuleChecks(r) { RuleFindings(r, finding); }
  }

  lemma {:induction false} TransitionFindings(lc: LifecycleSection, finding: Finding)
    requires finding.SupersessionWithoutSuccessor? || finding.ReviewWithoutAttribution?
    ensures Check(false, finding) in ChecksOf(lc) <==> Reported(lc, finding)
  {
    ChecksAre(lc, Check(false, finding));
    forall r <- lc.transitions
      ensures Check(false, finding) in RuleChecks(r) <==>
                || (finding == SupersessionWithoutSuccessor(r.id) && r.to == SUPERSEDED && !r.requiresSuccessor)
                || (finding == ReviewWithoutAttribution(r.id) && (r.to == ACCEPTED || r.to == REJECTED)
                    && !(r.requiresHumanReview && r.requiresActor && r.requiresRole))
    {
      RuleFindings(r, finding);
    }
  }

  /** The report on a lifecycle contains a finding exactly when the lifecycle has the defect it reports. */
  lemma {:induction false} FindingsMean(lc: LifecycleSection, finding: Finding)
    ensures finding in Failures(ChecksOf(lc)) <==> Reported(lc, finding)
  {
    FailuresAre(ChecksOf(lc), finding);
    if finding.TerminalHasOutbound? || finding.DeclaredButUnreachable? {
      StateFindings(lc, finding);
    } else {
      TransitionFindings(lc, finding);
    }
  }
}
