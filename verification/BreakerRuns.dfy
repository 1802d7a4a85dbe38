/** Safety of the circuit breaker over every run: stickiness, escalation, fault accounting, bounded exposure. */
module BreakerRuns {
  import opened Collections
  import opened HealthWindows
  import opened Breaker

  // ---- Stickiness ------------------------------------------------------------------------

  lemma {:induction false} TrippedIsSkipped<R>(cfg: Settings, s: State, cs: seq<Candidate<R>>, name: string)
    requires Tripped(cfg, s, name)
    ensures Lookup(Route(cfg, s, cs).after, name) == Lookup(s, name)
    ensures forall c <- Route(cfg, s, cs).invoked :: c.name != name
    decreases |cs|
  {
    if cs != [] {
      if !Serves(cfg, s, cs[0]) {
        TrippedIsSkipped(cfg, PassOver(cfg, s, cs[0]), cs[1..], name);
      }
    }
  }

  /** Once tripped, a mechanism's window never changes again and it is never invoked again, whatever health
      reports, faults and successes follow, until its window is reset. */
  lemma {:induction false} TrippedStaysTripped<R>(cfg: Settings, s: State, actions: seq<Action<R>>, name: string)
    requires Tripped(cfg, s, name)
    requires Reset(name) !in actions
    ensures Lookup(Run(cfg, s, actions), name) == Lookup(s, name)
    ensures Tripped(cfg, Run(cfg, s, actions), name)
    ensures forall p: Probe<R>, c: Probe<R> ::
              forall invoked <- Call(cfg, Run(cfg, s, actions), p, c).invoked :: invoked.name != name
    decreases |actions|
  {
    if actions == [] {
      forall p: Probe<R>, c: Probe<R>
        ensures forall invoked <- Call(cfg, s, p, c).invoked :: invoked.name != name
      {
        TrippedIsSkipped(cfg, s, Candidates(cfg, p, c), name);
      }
    } else {
      if actions[0].Verify? {
        TrippedIsSkipped(cfg, s, Candidates(cfg, actions[0].primary, actions[0].conservative), name);
      }
      assert Reset(name) !in actions[1..];
      TrippedStaysTripped(cfg, Step(cfg, s, actions[0]), actions[1..], name);
    }
  }

  // ---- Escalation ------------------------------------------------------------------------

  function OfKind(kind: EventKind): HealthEvent -> bool { (e: HealthEvent) => e.kind == kind }

  function Escalations(s: State): nat { Count(OfKind(Escalated), s.events) }

  function TripCredit(cfg: Settings, s: State): nat { if Tripped(cfg, s, cfg.primary) then 1 else 0 }

  function ResetsOf<R(==)>(name: string): Action<R> -> bool { a => a == Reset(name) }

  lemma AnnounceCounts(s: State, name: string, kind: EventKind, p: HealthEvent -> bool)
    ensures var e := Announce(s, name, kind).events[|s.events|];
            Count(p, Announce(s, name, kind).events) == Count(p, s.events) + if p(e) then 1 else 0
  {
    var after := Announce(s, name, kind);
    CountConcat(p, s.events, [after.events[|s.events|]]);
    assert [after.events[|s.events|]][1..] == [];
  }

  lemma PassOverEscalates<R>(cfg: Settings, s: State, c: Candidate<R>)
    ensures Escalations(PassOver(cfg, s, c)) == Escalations(s)
    ensures TripCredit(cfg, s) <= TripCredit(cfg, PassOver(cfg, s, c))
  {
    AnnounceCounts(Observe(s, c.name, true), c.name, ReportedUnhealthy, OfKind(Escalated));
  }

  lemma InvokeEscalates<R>(cfg: Settings, s: State, c: Candidate<R>)
    requires c.isPrimary ==> c.name == cfg.primary
    requires Serves(cfg, s, c)
    ensures var after := Invoke(cfg, s, c).after;
            Escalations(after) + TripCredit(cfg, s) <= Escalations(s) + TripCredit(cfg, after)
  {
    AnnounceCounts(Observe(s, c.name, true), c.name, Fault, OfKind(Escalated));
    AnnounceCounts(RecordFault(s, c.name, Fault), c.name, Escalated, OfKind(Escalated));
  }

  lemma {:induction false} RouteEscalates<R>(cfg: Settings, s: State, cs: seq<Candidate<R>>)
    requires forall c <- cs :: c.isPrimary ==> c.name == cfg.primary
    ensures var after := Route(cfg, s, cs).after;
            Escalations(after) + TripCredit(cfg, s) <= Escalations(s) + TripCredit(cfg, after)
    decreases |cs|
  {
    if cs != [] {
      if Serves(cfg, s, cs[0]) {
        InvokeEscalates(cfg, s, cs[0]);
      } else {
        PassOverEscalates(cfg, s, cs[0]);
        RouteEscalates(cfg, PassOver(cfg, s, cs[0]), cs[1..]);
      }
    }
  }

  /** Escalations are paid for: each one needs the primary to trip, and only a reset lets it trip again. */
  lemma {:induction false} EscalationsBounded<R>(cfg: Settings, s: State, actions: seq<Action<R>>)
    ensures Escalations(Run(cfg, s, actions)) + TripCredit(cfg, s)
         <= Escalations(s) + TripCredit(cfg, Run(cfg, s, actions)) + Count(ResetsOf(cfg.primary), actions)
    decreases |actions|
  {
    if actions != [] {
      var next := Step(cfg, s, actions[0]);
      if actions[0].Verify? {
        RouteEscalates(cfg, s, Candidates(cfg, actions[0].primary, actions[0].conservative));
      }
      EscalationsBounded(cfg, next, actions[1..]);
    }
  }

  /** Without resets, at most one escalation is ever announced, and after it the primary never serves. */
  lemma {:induction false} EscalatesAtMostOnce<R>(cfg: Settings, actions: seq<Action<R>>)
    requires Reset(cfg.primary) !in actions
    ensures Escalations(Run(cfg, Initial(cfg), actions)) <= 1
    ensures Escalations(Run(cfg, Initial(cfg), actions)) == 1 ==>
              forall p: Probe<R>, c: Probe<R> ::
                forall invoked <- Call(cfg, Run(cfg, Initial(cfg), actions), p, c).invoked ::
                  invoked.name != cfg.primary
  {
    EscalationsBounded(cfg, Initial(cfg), actions);
    CountExtremes(ResetsOf<R>(cfg.primary), actions);
    var end := Run(cfg, Initial(cfg), actions);
    if Escalations(end) == 1 {
      TrippedStaysTripped<R>(cfg, end, [], cfg.primary);
      assert Run<R>(cfg, end, []) == end;
    }
  }

  /** What an escalation event must report: the primary, over the threshold, on enough observations. */
  predicate EscalationJustified(cfg: Settings, e: HealthEvent) {
    e.kind.Escalated? ==>
      e.mechanism == cfg.primary && e.faultRate > cfg.threshold && e.observations >= cfg.minObservations
  }

  lemma {:induction false} RouteJustified<R>(cfg: Settings, s: State, cs: seq<Candidate<R>>)
    requires forall c <- cs :: c.isPrimary ==> c.name == cfg.primary
    requires forall e <- s.events :: EscalationJustified(cfg, e)
    ensures forall e <- Route(cfg, s, cs).after.events :: EscalationJustified(cfg, e)
    decreases |cs|
  {
    if cs != [] && !Serves(cfg, s, cs[0]) {
      RouteJustified(cfg, PassOver(cfg, s, cs[0]), cs[1..]);
    }
  }

  /** Over every run, an escalation is announced only of the primary and only with the evidence for it. */
  lemma {:induction false} EscalationsJustified<R>(cfg: Settings, s: State, actions: seq<Action<R>>)
    requires forall e <- s.events :: EscalationJustified(cfg, e)
    ensures forall e <- Run(cfg, s, actions).events :: EscalationJustified(cfg, e)
    decreases |actions|
  {
    if actions != [] {
      if actions[0].Verify? {
        RouteJustified(cfg, s, Candidates(cfg, actions[0].primary, actions[0].conservative));
      }
      EscalationsJustified(cfg, Step(cfg, s, actions[0]), actions[1..]);
    }
  }

  // ---- Fault accounting ------------------------------------------------------------------

  function FaultEventsOf(name: string): HealthEvent -> bool {
    (e: HealthEvent) => e.mechanism == name && e.kind != Escalated
  }

  function FaultEvents(s: State, name: string): nat { Count(FaultEventsOf(name), s.events) }

  function RecordedFaults(s: State, name: string): nat { FaultCount(Lookup(s, name).history) }

  lemma ObserveFaults(s: State, name: string, faulted: bool, other: string)
    ensures RecordedFaults(Observe(s, name, faulted), other)
         == RecordedFaults(s, other) + if faulted && other == name then 1 else 0
    ensures Observe(s, name, faulted).events == s.events
  {
    FaultCountConcat(Lookup(s, name).history, [faulted]);
    assert [faulted][1..] == [];
  }

  lemma FaultRecordedOnce(s: State, name: string, kind: EventKind, other: string)
    requires kind != Escalated
    ensures var after := RecordFault(s, name, kind);
            FaultEvents(after, other) - FaultEvents(s, other) == RecordedFaults(after, other) - RecordedFaults(s, other)
  {
    ObserveFaults(s, name, true, other);
    AnnounceCounts(Observe(s, name, true), name, kind, FaultEventsOf(other));
  }

  lemma InvokeFaults<R>(cfg: Settings, s: State, c: Candidate<R>, name: string)
    ensures var after := Invoke(cfg, s, c).after;
            FaultEvents(after, name) - FaultEvents(s, name) == RecordedFaults(after, name) - RecordedFaults(s, name)
  {
    if c.probe.attempt.Faults? {
      FaultRecordedOnce(s, c.name, Fault, name);
      AnnounceCounts(RecordFault(s, c.name, Fault), c.name, Escalated, FaultEventsOf(name));
    } else {
      ObserveFaults(s, c.name, false, name);
    }
  }

  lemma {:induction false} RouteFaults<R>(cfg: Settings, s: State, cs: seq<Candidate<R>>, name: string)
    ensures var after := Route(cfg, s, cs).after;
            FaultEvents(after, name) - FaultEvents(s, name) == RecordedFaults(after, name) - RecordedFaults(s, name)
    decreases |cs|
  {
    if cs != [] {
      if Serves(cfg, s, cs[0]) {
        InvokeFaults(cfg, s, cs[0], name);
      } else {
        FaultRecordedOnce(s, cs[0].name, ReportedUnhealthy, name);
        RouteFaults(cfg, PassOver(cfg, s, cs[0]), cs[1..], name);
      }
    }
  }

  /** Between resets, a mechanism's fault events are exactly the faults recorded in its history. */
  lemma {:induction false} FaultEventsMatchRecordedFaults<R>(
      cfg: Settings, s: State, actions: seq<Action<R>>, name: string)
    requires Reset(name) !in actions
    ensures var after := Run(cfg, s, actions);
            FaultEvents(after, name) - FaultEvents(s, name) == RecordedFaults(after, name) - RecordedFaults(s, name)
    decreases |actions|
  {
    if actions != [] {
      if actions[0].Verify? {
        RouteFaults(cfg, s, Candidates(cfg, actions[0].primary, actions[0].conservative), name);
      }
      assert Reset(name) !in actions[1..];
      FaultEventsMatchRecordedFaults(cfg, Step(cfg, s, actions[0]), actions[1..], name);
    }
  }

  // ---- Bounded exposure ------------------------------------------------------------------

  function Repeat(outcome: bool, n: nat): seq<bool> { seq(n, _ => outcome) }

  function AddFaults(w: Window, n: nat): Window { w.(history := w.history + Repeat(true, n)) }

  /** Settings under which the breaker can trip at all, for a window that keeps something. */
  predicate CanTrip(cfg: Settings) {
    1 <= cfg.capacity && cfg.minObservations <= cfg.capacity && cfg.threshold < 1.0
  }

  function Larger(a: int, b: int): int { if a < b then b else a }

  /** How many consecutive faults trip a mechanism from any state. */
  function ExposureLimit(cfg: Settings): nat {
    Larger(0, Larger(cfg.minObservations, Share(cfg.threshold, cfg.capacity).Floor + 1))
  }

  lemma {:induction false} RepeatCount(outcome: bool, n: nat)
    ensures FaultCount(Repeat(outcome, n)) == if outcome then n else 0
  {
    if 0 < n {
      assert Repeat(outcome, n)[1..] == Repeat(outcome, n - 1);
      RepeatCount(outcome, n - 1);
    }
  }

  lemma RecentFaults(history: seq<bool>, n: nat, capacity: nat)
    ensures var w := LastN(history + Repeat(true, n), capacity);
            && FaultCount(w) >= (if n < capacity then n else capacity)
            && (n <= capacity ==> FaultCount(w) == FaultCount(LastN(history, capacity - n)) + n)
  {
    var w := LastN(history + Repeat(true, n), capacity);
    if n <= capacity {
      assert w == LastN(history, capacity - n) + Repeat(true, n);
      FaultCountConcat(LastN(history, capacity - n), Repeat(true, n));
      RepeatCount(true, n);
    } else {
      assert w == Repeat(true, capacity);
      RepeatCount(true, capacity);
    }
  }

  lemma PartOfShare(t: real, part: real, whole: real, count: real)
    requires 0.0 < part <= whole && 0.0 <= count && t * whole < count
    ensures t * part < count
  {
    if 0.0 <= t {
      assert t * (whole - part) >= 0.0;
      assert t * (whole - part) == t * whole - t * part;
    } else {
      assert (-t) * part > 0.0;
    }
  }

  /** A count above a share of the whole window is above that share of any part of it. */
  lemma ShareOfPart(t: real, part: nat, whole: nat, count: nat)
    requires 0 < part <= whole && Share(t, whole) < count as real
    ensures Share(t, part) < count as real
  {
    PartOfShare(t, part as real, whole as real, count as real);
  }

  lemma ProductBounds(t: real, whole: real)
    requires 0.0 < whole
    ensures t < 1.0 <==> t * whole < whole
    ensures 0.0 <= t <==> 0.0 <= t * whole
  {
    assert (1.0 - t) * whole == whole - t * whole;
    if t < 1.0 { assert (1.0 - t) * whole > 0.0; }
    if t > 1.0 { assert (t - 1.0) * whole > 0.0; }
    if t > 0.0 { assert t * whole > 0.0; }
    if t < 0.0 { assert (-t) * whole > 0.0; }
  }

  lemma ShareBounds(t: real, whole: nat)
    requires 0 < whole
    ensures t < 1.0 <==> Share(t, whole) < whole as real
    ensures 0.0 <= t <==> 0.0 <= Share(t, whole)
  {
    ProductBounds(t, whole as real);
  }

  lemma LimitFits(cfg: Settings)
    requires CanTrip(cfg)
    ensures cfg.minObservations <= ExposureLimit(cfg) <= cfg.capacity
    ensures Share(cfg.threshold, cfg.capacity) < ExposureLimit(cfg) as real
    ensures ExposureLimit(cfg) == cfg.minObservations
         || ExposureLimit(cfg) == 0
         || (ExposureLimit(cfg) - 1) as real <= Share(cfg.threshold, cfg.capacity)
  {
    ShareBounds(cfg.threshold, cfg.capacity);
  }

  lemma {:induction false} FaultsExceedShare(cfg: Settings, outcomes: seq<bool>)
    requires CanTrip(cfg) && |outcomes| <= cfg.capacity
    requires ExposureLimit(cfg) <= FaultCount(outcomes)
    ensures OverThreshold(cfg, outcomes)
  {
    LimitFits(cfg);
    ShareBounds(cfg.threshold, cfg.capacity);
    if outcomes != [] {
      ShareOfPart(cfg.threshold, |outcomes|, cfg.capacity, FaultCount(outcomes));
      RateExceeds(outcomes, cfg.threshold);
    }
  }

  /** From any history, `ExposureLimit` faults among as many further outcomes as the window keeps put it over the
      threshold, wherever among them the faults fall. */
  lemma {:induction false} IntermittentExposure(cfg: Settings, history: seq<bool>, more: seq<bool>)
    requires CanTrip(cfg) && |more| <= cfg.capacity && ExposureLimit(cfg) <= FaultCount(more)
    ensures OverThreshold(cfg, LastN(history + more, cfg.capacity))
  {
    var kept := LastN(history, cfg.capacity - |more|);
    assert LastN(history + more, cfg.capacity) == kept + more;
    FaultCountConcat(kept, more);
    FaultsExceedShare(cfg, kept + more);
  }

  /** From any history, `ExposureLimit` further consecutive faults put the window over the threshold. */
  lemma {:induction false} ExposureBounded(cfg: Settings, history: seq<bool>, n: nat)
    requires CanTrip(cfg) && ExposureLimit(cfg) <= n
    ensures OverThreshold(cfg, LastN(history + Repeat(true, n), cfg.capacity))
  {
    LimitFits(cfg);
    RecentFaults(history, n, cfg.capacity);
    FaultsExceedShare(cfg, LastN(history + Repeat(true, n), cfg.capacity));
  }

  /** The bound is exact: some history that is not tripped survives one fault fewer. */
  lemma {:induction false} ExposureBoundTight(cfg: Settings) returns (history: seq<bool>)
    requires CanTrip(cfg) && 0.0 <= cfg.threshold
    ensures 1 <= ExposureLimit(cfg)
    ensures !OverThreshold(cfg, LastN(history, cfg.capacity))
    ensures !OverThreshold(cfg, LastN(history + Repeat(true, ExposureLimit(cfg) - 1), cfg.capacity))
  {
    LimitFits(cfg);
    ShareBounds(cfg.threshold, cfg.capacity);
    var n, cap := ExposureLimit(cfg) - 1, cfg.capacity;
    if n + 1 == cfg.minObservations {
      history := [];
    } else {
      history := Repeat(false, cap);
      CleanWindowAbsorbs(cfg, 0);
      CleanWindowAbsorbs(cfg, n);
      assert history + Repeat(true, 0) == history;
    }
  }

  /** A full window of successes absorbs any number of faults within the threshold's share. */
  lemma {:induction false} CleanWindowAbsorbs(cfg: Settings, n: nat)
    requires n <= cfg.capacity && 0 < cfg.capacity
    requires n as real <= Share(cfg.threshold, cfg.capacity)
    ensures !OverThreshold(cfg, LastN(Repeat(false, cfg.capacity) + Repeat(true, n), cfg.capacity))
  {
    var cap := cfg.capacity;
    RecentFaults(Repeat(false, cap), n, cap);
    assert LastN(Repeat(false, cap), cap - n) == Repeat(false, cap - n);
    RepeatCount(false, cap - n);
    RateExceeds(LastN(Repeat(false, cap) + Repeat(true, n), cap), cfg.threshold);
  }

  /** A breaker whose window is smaller than its minimum, or whose bar is one, never trips; every other can. */
  lemma {:induction false} TripsIffConfigured(cfg: Settings)
    requires 0.0 <= cfg.threshold && 1 <= cfg.capacity
    ensures (exists history :: OverThreshold(cfg, LastN(history, cfg.capacity))) <==> CanTrip(cfg)
  {
    if CanTrip(cfg) {
      ExposureBounded(cfg, [], ExposureLimit(cfg));
    }
    forall history: seq<bool> | OverThreshold(cfg, LastN(history, cfg.capacity))
      ensures CanTrip(cfg)
    {
      var w := LastN(history, cfg.capacity);
      if w != [] {
        RateExceeds(w, cfg.threshold);
        ShareBounds(cfg.threshold, |w|);
      }
    }
  }

  // ---- Runs in which every attempt goes wrong --------------------------------------------

  predicate GoesWrong<R>(p: Probe<R>) { !p.healthy || p.attempt.Faults? }

  predicate AllGoWrong<R>(a: Action<R>) { a.Verify? && GoesWrong(a.primary) && GoesWrong(a.conservative) }

  lemma AddFaultsTwice(w: Window, a: nat, b: nat)
    ensures AddFaults(AddFaults(w, a), b) == AddFaults(w, a + b)
  {
    assert Repeat(true, a) + Repeat(true, b) == Repeat(true, a + b);
    assert (w.history + Repeat(true, a)) + Repeat(true, b) == w.history + Repeat(true, a + b);
  }

  /** Candidate `i` is the first one not tripped. */
  predicate FirstStanding<R>(cfg: Settings, s: State, cs: seq<Candidate<R>>, i: nat)
    requires i < |cs|
  {
    !Tripped(cfg, s, cs[i].name) && forall j :: 0 <= j < i ==> Tripped(cfg, s, cs[j].name)
  }

  /** The faults one wrong candidate adds to a window: one if the window is its own and not tripped. */
  function FaultsAdded<R>(cfg: Settings, s: State, c: Candidate<R>, name: string): nat {
    if c.name == name && !Tripped(cfg, s, name) then 1 else 0
  }

  lemma WrongCandidate<R>(cfg: Settings, s: State, c: Candidate<R>, name: string)
    requires GoesWrong(c.probe)
    ensures var after := if Serves(cfg, s, c) then Invoke(cfg, s, c).after else PassOver(cfg, s, c);
            Lookup(after, name) == AddFaults(Lookup(s, name), FaultsAdded(cfg, s, c, name))
  {
    NoFaultsAdded(Lookup(s, name));
    assert Repeat(true, 1) == [true];
  }

  lemma NoFaultsAdded(w: Window)
    ensures AddFaults(w, 0) == w
  {
    assert w.history + Repeat(true, 0) == w.history;
  }

  /** When every candidate goes wrong, windows only gain faults, and the first candidate not tripped gains one. */
  lemma {:induction false} WrongRoute<R>(
      cfg: Settings, s: State, cs: seq<Candidate<R>>, name: string) returns (added: nat)
    requires forall c <- cs :: GoesWrong(c.probe)
    ensures Lookup(Route(cfg, s, cs).after, name) == AddFaults(Lookup(s, name), added)
    ensures forall i :: 0 <= i < |cs| && FirstStanding(cfg, s, cs, i) && cs[i].name == name ==> 1 <= added
    decreases |cs|
  {
    if cs == [] {
      added := 0;
      NoFaultsAdded(Lookup(s, name));
    } else {
      var c, here := cs[0], FaultsAdded(cfg, s, cs[0], name);
      WrongCandidate(cfg, s, c, name);
      if Serves(cfg, s, c) {
        added := here;
      } else {
        var later := WrongRoute(cfg, PassOver(cfg, s, c), cs[1..], name);
        AddFaultsTwice(Lookup(s, name), here, later);
        added := here + later;
        FirstStandingTail(cfg, s, cs);
      }
    }
  }

  lemma FirstStandingTail<R>(cfg: Settings, s: State, cs: seq<Candidate<R>>)
    requires cs != []
    ensures !Tripped(cfg, s, cs[0].name) ==> forall i :: 0 < i < |cs| ==> !FirstStanding(cfg, s, cs, i)
    ensures forall i :: 0 < i < |cs| && FirstStanding(cfg, s, cs, i) ==> FirstStanding(cfg, s, cs[1..], i - 1)
  {
    assert forall j :: 0 <= j < |cs[1..]| ==> cs[1..][j] == cs[j + 1];
  }

  /** A call in which every candidate goes wrong adds a fault to the first mechanism standing. */
  lemma {:induction false} WrongStep<R>(cfg: Settings, s: State, a: Action<R>, name: string) returns (added: nat)
    requires AllGoWrong(a) && !Tripped(cfg, s, name)
    requires name == cfg.primary || (cfg.conservative == Some(name) && Tripped(cfg, s, cfg.primary))
    ensures 1 <= added && Lookup(Step(cfg, s, a), name) == AddFaults(Lookup(s, name), added)
    ensures Tripped(cfg, s, cfg.primary) ==> Tripped(cfg, Step(cfg, s, a), cfg.primary)
  {
    var cs := Candidates(cfg, a.primary, a.conservative);
    added := WrongRoute(cfg, s, cs, name);
    assert FirstStanding(cfg, s, cs, if Tripped(cfg, s, cfg.primary) then 1 else 0) by {
      assert name == cs[0].name || (|cs| == 2 && name == cs[1].name && Tripped(cfg, s, cs[0].name));
    }
    if Tripped(cfg, s, cfg.primary) { TrippedIsSkipped(cfg, s, cs, cfg.primary); }
  }

  lemma {:induction false} WrongRun<R>(
      cfg: Settings, s: State, actions: seq<Action<R>>, name: string) returns (added: nat)
    requires forall a <- actions :: AllGoWrong(a)
    requires name == cfg.primary || (cfg.conservative == Some(name) && Tripped(cfg, s, cfg.primary))
    ensures Lookup(Run(cfg, s, actions), name) == AddFaults(Lookup(s, name), added)
    ensures Tripped(cfg, Run(cfg, s, actions), name) || |actions| <= added
    decreases |actions|
  {
    if Tripped(cfg, s, name) {
      TrippedStaysTripped(cfg, s, actions, name);
      added := 0;
      NoFaultsAdded(Lookup(s, name));
    } else if actions == [] {
      added := 0;
      NoFaultsAdded(Lookup(s, name));
    } else {
      var first := WrongStep(cfg, s, actions[0], name);
      var rest := WrongRun(cfg, Step(cfg, s, actions[0]), actions[1..], name);
      AddFaultsTwice(Lookup(s, name), first, rest);
      added := first + rest;
    }
  }

  lemma {:induction false} WrongRunTrips<R>(cfg: Settings, s: State, actions: seq<Action<R>>, name: string)
    requires CanTrip(cfg) && Lookup(s, name).capacity == cfg.capacity
    requires forall a <- actions :: AllGoWrong(a)
    requires name == cfg.primary || (cfg.conservative == Some(name) && Tripped(cfg, s, cfg.primary))
    requires ExposureLimit(cfg) <= |actions|
    ensures Tripped(cfg, Run(cfg, s, actions), name)
  {
    var added := WrongRun(cfg, s, actions, name);
    if |actions| <= added {
      ExposureBounded(cfg, Lookup(s, name).history, added);
    }
  }

  lemma {:induction false} RouteKeepsCapacity<R>(cfg: Settings, s: State, cs: seq<Candidate<R>>, name: string)
    ensures Lookup(Route(cfg, s, cs).after, name).capacity == Lookup(s, name).capacity
    decreases |cs|
  {
    if cs != [] {
      if !Serves(cfg, s, cs[0]) {
        RouteKeepsCapacity(cfg, PassOver(cfg, s, cs[0]), cs[1..], name);
      }
    }
  }

  lemma {:induction false} RunKeepsCapacity<R>(cfg: Settings, s: State, actions: seq<Action<R>>, name: string)
    ensures Lookup(Run(cfg, s, actions), name).capacity == Lookup(s, name).capacity
    decreases |actions|
  {
    if actions != [] {
      if actions[0].Verify? {
        RouteKeepsCapacity(cfg, s, Candidates(cfg, actions[0].primary, actions[0].conservative), name);
      }
      RunKeepsCapacity(cfg, Step(cfg, s, actions[0]), actions[1..], name);
    }
  }

  lemma {:induction false} RunConcat<R>(cfg: Settings, s: State, before: seq<Action<R>>, after: seq<Action<R>>)
    ensures Run(cfg, s, before + after) == Run(cfg, Run(cfg, s, before), after)
    decreases |before|
  {
    if before == [] {
      assert before + after == after;
    } else {
      assert (before + after)[1..] == before[1..] + after;
      RunConcat(cfg, Step(cfg, s, before[0]), before[1..], after);
    }
  }

  lemma {:induction false} WrongRunTripsAll<R>(cfg: Settings, s: State, wrong: seq<Action<R>>, name: string)
    requires CanTrip(cfg) && Lookup(s, cfg.primary).capacity == cfg.capacity && Lookup(s, name).capacity == cfg.capacity
    requires forall a <- wrong :: AllGoWrong(a)
    requires name == cfg.primary || cfg.conservative == Some(name)
    requires 2 * ExposureLimit(cfg) <= |wrong|
    ensures Tripped(cfg, Run(cfg, s, wrong), name)
  {
    var k := ExposureLimit(cfg);
    var first, second := wrong[..k], wrong[k..];
    assert wrong == first + second;
    RunConcat(cfg, s, first, second);
    WrongRunTrips(cfg, s, first, cfg.primary);
    RunKeepsCapacity(cfg, s, first, name);
    WrongRunTrips(cfg, Run(cfg, s, first), second, name);
  }

  /** After any run at all, twice the exposure limit of calls in which every attempt goes wrong leaves no
      mechanism standing: every later call refuses, invokes nobody, and changes nothing. */
  lemma {:induction false} PersistentFaultsEndInRefusal<R>(
      cfg: Settings, before: seq<Action<R>>, wrong: seq<Action<R>>, p: Probe<R>, c: Probe<R>)
    requires CanTrip(cfg)
    requires forall a <- wrong :: AllGoWrong(a)
    requires 2 * ExposureLimit(cfg) <= |wrong|
    ensures var s := Run(cfg, Initial(cfg), before + wrong);
            Call(cfg, s, p, c) == Routed(s, Unavailable, [])
  {
    var s0 := Run(cfg, Initial(cfg), before);
    RunConcat(cfg, Initial(cfg), before, wrong);
    RunKeepsCapacity(cfg, Initial(cfg), before, cfg.primary);
    WrongRunTripsAll(cfg, s0, wrong, cfg.primary);
    if cfg.conservative.Some? {
      RunKeepsCapacity(cfg, Initial(cfg), before, cfg.conservative.value);
      WrongRunTripsAll(cfg, s0, wrong, cfg.conservative.value);
    }
    AllTrippedRefuses(cfg, Run(cfg, s0, wrong), Candidates(cfg, p, c));
  }

  lemma {:induction false} AllTrippedRefuses<R>(cfg: Settings, s: State, cs: seq<Candidate<R>>)
    requires forall c <- cs :: Tripped(cfg, s, c.name)
    ensures Route(cfg, s, cs) == Routed(s, Unavailable, [])
  {
    if cs != [] { AllTrippedRefuses(cfg, s, cs[1..]); }
  }
}
