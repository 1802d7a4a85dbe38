/** Circuit-breaker routing as a function of the recorded health, and what holds over whole runs of it. */
module Breaker {
  import opened Collections
  import opened Domain
  import opened HealthWindows

  datatype Settings = Settings(
    primary: string, conservative: Option<string>, threshold: real, minObservations: int, capacity: nat)

  /** A window as its owner sees it: how much it keeps, and everything recorded since the last reset. */
  datatype Window = Window(capacity: nat, history: seq<bool>) {
    function Outcomes(): seq<bool> { LastN(history, capacity) }
  }

  datatype EventKind = ReportedUnhealthy | Fault | Escalated

  datatype HealthEvent = HealthEvent(mechanism: string, kind: EventKind, faultRate: real, observations: nat)

  datatype State = State(windows: map<string, Window>, events: seq<HealthEvent>)

  /** What one mechanism does when asked during a call: its health report, and how an invocation would end. */
  datatype Attempt<+R> = Answers(response: R) | Faults(reasonCode: RawCode)

  datatype Probe<+R> = Probe(healthy: bool, attempt: Attempt<R>)

  datatype Candidate<+R> = Candidate(name: string, isPrimary: bool, probe: Probe<R>)

  datatype Outcome<+R> = Responded(response: R) | Failed(reasonCode: RawCode) | Unavailable

  datatype Routed<+R> = Routed(after: State, outcome: Outcome<R>, invoked: seq<Candidate<R>>)

  const DEFAULT_CAPACITY: nat := 50

  function Initial(cfg: Settings): State {
    var windows := map[cfg.primary := Window(cfg.capacity, [])];
    State(if cfg.conservative.Some? then windows[cfg.conservative.value := Window(cfg.capacity, [])] else windows, [])
  }

  /** `setdefault`: an unknown mechanism is given a fresh window of the default capacity. */
  function Lookup(s: State, name: string): Window {
    if name in s.windows then s.windows[name] else Window(DEFAULT_CAPACITY, [])
  }

  function Touch(s: State, name: string): State {
    s.(windows := s.windows[name := Lookup(s, name)])
  }

  /** The breaker's test on the outcomes a window holds: enough of them, and too high a share of faults. */
  predicate OverThreshold(cfg: Settings, outcomes: seq<bool>) {
    |outcomes| >= cfg.minObservations && FaultRate(outcomes) > cfg.threshold
  }

  predicate Tripped(cfg: Settings, s: State, name: string) {
    OverThreshold(cfg, Lookup(s, name).Outcomes())
  }

  function Observe(s: State, name: string, faulted: bool): State {
    var w := Lookup(s, name);
    s.(windows := s.windows[name := w.(history := w.history + [faulted])])
  }

  function Announce(s: State, name: string, kind: EventKind): State {
    var outcomes := Lookup(s, name).Outcomes();
    s.(events := s.events + [HealthEvent(name, kind, FaultRate(outcomes), |outcomes|)])
  }

  /** A fault is recorded in the mechanism's window and announced. */
  function RecordFault(s: State, name: string, kind: EventKind): State {
    Announce(Observe(s, name, true), name, kind)
  }

  /** The primary announces an escalation when the fault it just recorded trips it. */
  function AfterFault<R>(cfg: Settings, s: State, c: Candidate<R>): State {
    var faulted := RecordFault(s, c.name, Fault);
    if c.isPrimary && Tripped(cfg, faulted, c.name) then Announce(faulted, c.name, Escalated) else faulted
  }

  function Candidates<R>(cfg: Settings, primary: Probe<R>, conservative: Probe<R>): (cs: seq<Candidate<R>>)
    ensures 1 <= |cs| <= 2
  {
    [Candidate(cfg.primary, true, primary)] +
    if cfg.conservative.Some? then [Candidate(cfg.conservative.value, false, conservative)] else []
  }

  /** One invocation, recorded; its response or its fault is the outcome. */
  function Invoke<R>(cfg: Settings, s: State, c: Candidate<R>): Routed<R> {
    match c.probe.attempt
    case Answers(response) => Routed(Observe(s, c.name, false), Responded(response), [c])
    case Faults(code) => Routed(AfterFault(cfg, s, c), Failed(code), [c])
  }

  /** A candidate serves when it is not tripped and reports itself healthy. */
  predicate Serves<R>(cfg: Settings, s: State, c: Candidate<R>) {
    !Tripped(cfg, s, c.name) && c.probe.healthy
  }

  /** A candidate that does not serve is passed over; one that is not tripped has its report recorded as a fault. */
  function PassOver<R>(cfg: Settings, s: State, c: Candidate<R>): State {
    if Tripped(cfg, s, c.name) then s else RecordFault(s, c.name, ReportedUnhealthy)
  }

  /** Passes over candidates in order until one serves; when none does, the call is refused. */
  function Route<R>(cfg: Settings, s: State, cs: seq<Candidate<R>>): Routed<R>
    decreases |cs|
  {
    if cs == [] then Routed(s, Unavailable, [])
    else if Serves(cfg, s, cs[0]) then Invoke(cfg, s, cs[0])
    else Route(cfg, PassOver(cfg, s, cs[0]), cs[1..])
  }

  /** What the next candidate does to the route from candidate `i` on. */
  lemma RouteFrom<R>(cfg: Settings, s: State, cs: seq<Candidate<R>>, i: nat)
    requires i <= |cs|
    ensures Route(cfg, s, cs[i..])
         == if i == |cs| then Routed(s, Unavailable, [])
            else if Serves(cfg, s, cs[i]) then Invoke(cfg, s, cs[i])
            else Route(cfg, PassOver(cfg, s, cs[i]), cs[i + 1..])
  {
    if i < |cs| {
      assert cs[i..][0] == cs[i] && cs[i..][1..] == cs[i + 1..];
    }
  }

  function Call<R>(cfg: Settings, s: State, primary: Probe<R>, conservative: Probe<R>): Routed<R> {
    Route(cfg, s, Candidates(cfg, primary, conservative))
  }

  /** Resetting a window forgets everything recorded in it. */
  function Clear(s: State, name: string): State {
    s.(windows := s.windows[name := Lookup(s, name).(history := [])])
  }

  datatype Action<+R> = Verify(primary: Probe<R>, conservative: Probe<R>) | Reset(mechanism: string)

  function Step<R>(cfg: Settings, s: State, a: Action<R>): State {
    match a
    case Verify(p, c) => Call(cfg, s, p, c).after
    case Reset(name) => Clear(s, name)
  }

  function Run<R>(cfg: Settings, s: State, actions: seq<Action<R>>): State
    decreases |actions|
  {
    if actions == [] then s else Run(cfg, Step(cfg, s, actions[0]), actions[1..])
  }

  // ---- Routing of one call ---------------------------------------------------------------

  /** The state in which candidate `i` is considered, when every earlier candidate was passed over. */
  function PassedOver<R>(cfg: Settings, s: State, cs: seq<Candidate<R>>, i: nat): State
    requires i <= |cs|
  {
    if i == 0 then s else PassOver(cfg, PassedOver(cfg, s, cs, i - 1), cs[i - 1])
  }

  /** Candidate `i` may serve when its turn comes. */
  predicate Eligible<R>(cfg: Settings, s: State, cs: seq<Candidate<R>>, i: nat)
    requires i < |cs|
  {
    Serves(cfg, PassedOver(cfg, s, cs, i), cs[i])
  }

  lemma {:induction false} SkipsIneligible<R>(cfg: Settings, s: State, cs: seq<Candidate<R>>, i: nat)
    requires i <= |cs| && forall j :: 0 <= j < i ==> !Eligible(cfg, s, cs, j)
    ensures Route(cfg, s, cs) == Route(cfg, PassedOver(cfg, s, cs, i), cs[i..])
  {
    if i == 0 {
      assert cs[0..] == cs;
    } else {
      SkipsIneligible(cfg, s, cs, i - 1);
      assert !Eligible(cfg, s, cs, i - 1);
      assert cs[i - 1..][0] == cs[i - 1] && cs[i - 1..][1..] == cs[i..];
    }
  }

  lemma {:induction false} LeastEligible<R>(cfg: Settings, s: State, cs: seq<Candidate<R>>, i: nat) returns (least: nat)
    requires i <= |cs| && forall j :: 0 <= j < i ==> !Eligible(cfg, s, cs, j)
    ensures least <= |cs| && forall j :: 0 <= j < least ==> !Eligible(cfg, s, cs, j)
    ensures least < |cs| ==> Eligible(cfg, s, cs, least)
    decreases |cs| - i
  {
    if i < |cs| && !Eligible(cfg, s, cs, i) {
      least := LeastEligible(cfg, s, cs, i + 1);
    } else {
      least := i;
    }
  }

  /** Who serves is decided by eligibility alone: the first eligible candidate is the only one invoked and
      the outcome is what that invocation produced; with none eligible, nobody is invoked and the call refuses. */
  lemma {:induction false} FirstEligibleServes<R>(cfg: Settings, s: State, cs: seq<Candidate<R>>)
    ensures forall i :: 0 <= i < |cs| && Eligible(cfg, s, cs, i)
              && (forall j :: 0 <= j < i ==> !Eligible(cfg, s, cs, j))
              ==> Route(cfg, s, cs) == Invoke(cfg, PassedOver(cfg, s, cs, i), cs[i])
    ensures (forall i :: 0 <= i < |cs| ==> !Eligible(cfg, s, cs, i))
              ==> Route(cfg, s, cs) == Routed(PassedOver(cfg, s, cs, |cs|), Unavailable, [])
    ensures Route(cfg, s, cs).outcome.Unavailable? <==> forall i :: 0 <= i < |cs| ==> !Eligible(cfg, s, cs, i)
    ensures |Route(cfg, s, cs).invoked| == if Route(cfg, s, cs).outcome.Unavailable? then 0 else 1
  {
    forall i | 0 <= i < |cs| && Eligible(cfg, s, cs, i) && (forall j :: 0 <= j < i ==> !Eligible(cfg, s, cs, j))
      ensures Route(cfg, s, cs) == Invoke(cfg, PassedOver(cfg, s, cs, i), cs[i])
    {
      SkipsIneligible(cfg, s, cs, i);
    }
    var least := LeastEligible(cfg, s, cs, 0);
    SkipsIneligible(cfg, s, cs, least);
    assert cs[|cs|..] == [];
  }

  lemma {:induction false} PassOverSpares<R>(cfg: Settings, s: State, c: Candidate<R>, name: string)
    requires name != c.name || Tripped(cfg, s, c.name)
    ensures Tripped(cfg, PassOver(cfg, s, c), name) == Tripped(cfg, s, name)
  {
  }

  lemma {:induction false} SecondServesUntripped<R>(cfg: Settings, s: State, cs: seq<Candidate<R>>)
    requires |cs| == 2 && !Eligible(cfg, s, cs, 0) && Eligible(cfg, s, cs, 1)
    ensures !Tripped(cfg, s, cs[1].name) && cs[1].probe.healthy
    ensures Tripped(cfg, s, cs[0].name) || !cs[0].probe.healthy
  {
    assert PassedOver(cfg, s, cs, 0) == s;
    assert PassedOver(cfg, s, cs, 1) == PassOver(cfg, s, cs[0]);
    if cs[1].name != cs[0].name || Tripped(cfg, s, cs[0].name) { PassOverSpares(cfg, s, cs[0], cs[1].name); }
  }

  /** A response is never made up: it came from the one mechanism invoked in this call, which was healthy and
      not tripped. */
  lemma {:induction false} ResponseHasAServer<R>(cfg: Settings, s: State, primary: Probe<R>, conservative: Probe<R>)
    ensures var routed := Call(cfg, s, primary, conservative);
            routed.outcome.Responded? ==>
              && |routed.invoked| == 1
              && routed.invoked[0].probe.healthy
              && routed.invoked[0].probe.attempt == Answers(routed.outcome.response)
              && !Tripped(cfg, s, routed.invoked[0].name)
  {
    var cs := Candidates(cfg, primary, conservative);
    var least := LeastEligible(cfg, s, cs, 0);
    FirstEligibleServes(cfg, s, cs);
    if least == 1 && |cs| == 2 { SecondServesUntripped(cfg, s, cs); }
  }

  /** A failed call failed in the one mechanism invoked, healthy and not tripped, and with that mechanism's own code. */
  lemma {:induction false} FailureHasAServer<R>(cfg: Settings, s: State, primary: Probe<R>, conservative: Probe<R>)
    ensures var routed := Call(cfg, s, primary, conservative);
            routed.outcome.Failed? ==>
              && |routed.invoked| == 1
              && routed.invoked[0].probe.healthy
              && routed.invoked[0].probe.attempt == Faults(routed.outcome.reasonCode)
              && !Tripped(cfg, s, routed.invoked[0].name)
  {
    var cs := Candidates(cfg, primary, conservative);
    var least := LeastEligible(cfg, s, cs, 0);
    FirstEligibleServes(cfg, s, cs);
    if least == 1 && |cs| == 2 { SecondServesUntripped(cfg, s, cs); }
  }

  /** Whoever is invoked is a configured mechanism, and the conservative one is invoked only when the primary was
      tripped or reported itself unhealthy. */
  lemma {:induction false} ConservativeOnlyInstead<R>(
      cfg: Settings, s: State, primary: Probe<R>, conservative: Probe<R>)
    ensures forall c <- Call(cfg, s, primary, conservative).invoked ::
              if c.isPrimary then c == Candidate(cfg.primary, true, primary)
              else cfg.conservative.Some? && c == Candidate(cfg.conservative.value, false, conservative)
                   && (Tripped(cfg, s, cfg.primary) || !primary.healthy)
  {
    var cs := Candidates(cfg, primary, conservative);
    var least := LeastEligible(cfg, s, cs, 0);
    SkipsIneligible(cfg, s, cs, least);
    if least == 1 && |cs| == 2 { SecondServesUntripped(cfg, s, cs); }
  }
}
