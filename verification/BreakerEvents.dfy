/** What the event log of the breaker says, and what a reset restores. */
module BreakerEvents {
  import opened Collections
  import opened HealthWindows
  import opened Breaker
  import opened BreakerRuns

  /** An event reports the fault rate and the number of observations that its mechanism's window shows. */
  predicate Reports(s: State, e: HealthEvent) {
    var outcomes := Lookup(s, e.mechanism).Outcomes();
    e.observations == |outcomes| && e.faultRate == FaultRate(outcomes)
  }

  predicate ReportsSince(s: State, events: seq<HealthEvent>, k: nat) {
    forall i :: k <= i < |events| ==> Reports(s, events[i])
  }

  function KindOf(name: string, kind: EventKind): HealthEvent -> bool {
    (e: HealthEvent) => e.mechanism == name && e.kind == kind
  }

  function Announced(s: State, name: string, kind: EventKind): nat { Count(KindOf(name, kind), s.events) }

  function One(holds: bool): nat { if holds then 1 else 0 }

  lemma OneAnnounced(s: State, name: string, kind: EventKind, other: string, k: EventKind)
    ensures Announced(Breaker.Announce(s, name, kind), other, k)
              == Announced(s, other, k) + One(name == other && kind == k)
  {
    AnnounceCounts(s, name, kind, KindOf(other, k));
  }

  /** The state after a candidate was considered: invoked if it serves, passed over if not. */
  function Considered<R>(cfg: Settings, s: State, c: Candidate<R>): State {
    if Serves(cfg, s, c) then Invoke(cfg, s, c).after else PassOver(cfg, s, c)
  }

  /** What considering one candidate announces of it: its own unhealthy report, or its fault. */
  lemma {:induction false} CandidateAnnounces<R>(cfg: Settings, s: State, c: Candidate<R>, name: string)
    ensures var after := Considered(cfg, s, c);
            && Announced(after, name, ReportedUnhealthy)
               == Announced(s, name, ReportedUnhealthy) + One(name == c.name && !Tripped(cfg, s, name)
                                                              && !c.probe.healthy)
            && Announced(after, name, Fault)
               == Announced(s, name, Fault) + One(name == c.name && Serves(cfg, s, c) && c.probe.attempt.Faults?)
  {
    var kind := if Serves(cfg, s, c) then Fault else ReportedUnhealthy;
    var observed := Observe(s, c.name, true);
    OneAnnounced(observed, c.name, kind, name, ReportedUnhealthy);
    OneAnnounced(observed, c.name, kind, name, Fault);
    OneAnnounced(RecordFault(s, c.name, kind), c.name, Escalated, name, ReportedUnhealthy);
    OneAnnounced(RecordFault(s, c.name, kind), c.name, Escalated, name, Fault);
  }

  lemma FaultReports(s: State, name: string, kind: EventKind)
    ensures var after := RecordFault(s, name, kind);
            && |after.events| == |s.events| + 1 && s.events <= after.events
            && after.events[|s.events|].mechanism == name && Reports(after, after.events[|s.events|])
  {
  }

  lemma AnnouncementReports(s: State, name: string, kind: EventKind)
    ensures var after := Breaker.Announce(s, name, kind);
            && |after.events| == |s.events| + 1 && s.events <= after.events && after.windows == s.windows
            && after.events[|s.events|].mechanism == name && Reports(after, after.events[|s.events|])
  {
  }

  lemma {:induction false} CandidateReports<R>(cfg: Settings, s: State, c: Candidate<R>)
    ensures var after := Considered(cfg, s, c);
            && s.events <= after.events && ReportsSince(after, after.events, |s.events|)
            && forall i :: |s.events| <= i < |after.events| ==> after.events[i].mechanism == c.name
  {
    FaultReports(s, c.name, ReportedUnhealthy);
    FaultReports(s, c.name, Fault);
    AnnouncementReports(RecordFault(s, c.name, Fault), c.name, Escalated);
  }

  /** Events that reported a window go on reporting it while it stands and further events are only appended. */
  lemma {:induction false} ReportsCarryOver(s: State, after: State, k: nat, name: string)
    requires s.events <= after.events && k <= |s.events|
    requires ReportsSince(s, s.events, k) && ReportsSince(after, after.events, |s.events|)
    requires forall i :: k <= i < |s.events| ==> s.events[i].mechanism == name
    requires Lookup(after, name) == Lookup(s, name)
    ensures ReportsSince(after, after.events, k)
  {
    forall i | k <= i < |after.events| ensures Reports(after, after.events[i]) {
      if i < |s.events| { assert Reports(s, s.events[i]); }
    }
  }

  lemma {:induction false} OthersUntouched<R>(cfg: Settings, s: State, c: Candidate<R>, name: string)
    requires name != c.name
    ensures var after := Considered(cfg, s, c);
            Lookup(after, name) == Lookup(s, name)
  {
  }

  /** A call only appends events, and with distinct names each new event reports its mechanism's window as the call
      leaves it. */
  lemma {:induction false} CallEventsReport<R>(cfg: Settings, s: State, p: Probe<R>, c: Probe<R>)
    requires cfg.conservative != Some(cfg.primary)
    ensures var after := Call(cfg, s, p, c).after;
            s.events <= after.events && ReportsSince(after, after.events, |s.events|)
  {
    var cs := Candidates(cfg, p, c);
    CallConsiders(cfg, s, p, c);
    CandidateReports(cfg, s, cs[0]);
    if !Serves(cfg, s, cs[0]) && |cs| == 2 {
      var mid := Considered(cfg, s, cs[0]);
      CandidateReports(cfg, mid, cs[1]);
      OthersUntouched(cfg, mid, cs[1], cs[0].name);
      ReportsCarryOver(mid, Considered(cfg, mid, cs[1]), |s.events|, cs[0].name);
    }
  }

  lemma {:induction false} CallConsiders<R>(cfg: Settings, s: State, p: Probe<R>, c: Probe<R>)
    ensures var cs := Candidates(cfg, p, c);
            var first := Considered(cfg, s, cs[0]);
            Call(cfg, s, p, c).after
            == if Serves(cfg, s, cs[0]) || |cs| == 1 then first else Considered(cfg, first, cs[1])
  {
    var cs := Candidates(cfg, p, c);
    if !Serves(cfg, s, cs[0]) {
      var mid := PassOver(cfg, s, cs[0]);
      assert Route(cfg, s, cs) == Route(cfg, mid, cs[1..]);
      if |cs| == 2 {
        assert cs[1..] == [cs[1]] && cs[1..][1..] == [];
        if !Serves(cfg, mid, cs[1]) { assert Route(cfg, mid, cs[1..]) == Route(cfg, PassOver(cfg, mid, cs[1]), []); }
      } else {
        assert cs[1..] == [];
      }
    }
  }

  /** What a call announces of the primary. */
  lemma {:induction false} CallAnnouncesPrimary<R>(cfg: Settings, s: State, p: Probe<R>, c: Probe<R>)
    requires cfg.conservative != Some(cfg.primary)
    ensures var after, name := Call(cfg, s, p, c).after, cfg.primary;
            && Announced(after, name, ReportedUnhealthy)
               == Announced(s, name, ReportedUnhealthy) + One(!Tripped(cfg, s, name) && !p.healthy)
            && Announced(after, name, Fault)
               == Announced(s, name, Fault) + One(!Tripped(cfg, s, name) && p.healthy && p.attempt.Faults?)
  {
    var cs := Candidates(cfg, p, c);
    CallConsiders(cfg, s, p, c);
    CandidateAnnounces(cfg, s, cs[0], cfg.primary);
    if !Serves(cfg, s, cs[0]) && |cs| == 2 {
      CandidateAnnounces(cfg, Considered(cfg, s, cs[0]), cs[1], cfg.primary);
    }
  }

  /** What a call announces of the conservative mechanism, which it considers only when the primary does not serve. */
  lemma {:induction false} CallAnnouncesConservative<R>(cfg: Settings, s: State, p: Probe<R>, c: Probe<R>, name: string)
    requires cfg.conservative == Some(name) && name != cfg.primary
    ensures var after := Call(cfg, s, p, c).after;
            var asked := (Tripped(cfg, s, cfg.primary) || !p.healthy) && !Tripped(cfg, s, name);
            && Announced(after, name, ReportedUnhealthy)
                 == Announced(s, name, ReportedUnhealthy) + One(asked && !c.healthy)
            && Announced(after, name, Fault)
               == Announced(s, name, Fault) + One(asked && c.healthy && c.attempt.Faults?)
  {
    var cs := Candidates(cfg, p, c);
    CallConsiders(cfg, s, p, c);
    CandidateAnnounces(cfg, s, cs[0], name);
    if !Serves(cfg, s, cs[0]) {
      OthersUntouched(cfg, s, cs[0], name);
      CandidateAnnounces(cfg, Considered(cfg, s, cs[0]), cs[1], name);
    }
  }

  /** A reset forgets one mechanism's outcomes and no other's, announces nothing, and puts the mechanism back in
      service wherever a minimum of observations is asked for. */
  lemma {:induction false} ResetRestores<R>(cfg: Settings, s: State, name: string, other: string)
    ensures var after := Step<R>(cfg, s, Reset(name));
            && Lookup(after, name) == Window(Lookup(s, name).capacity, []) && after.events == s.events
            && (other != name ==> Lookup(after, other) == Lookup(s, other))
            && (1 <= cfg.minObservations ==> !Tripped(cfg, after, name))
  {
  }

  /** A new breaker shows every mechanism with an empty window: of the configured capacity if it is configured, of
      the default one otherwise. */
  lemma NewBreaker(cfg: Settings, name: string)
    ensures var configured := name == cfg.primary || cfg.conservative == Some(name);
            Lookup(Initial(cfg), name) == Window(if configured then cfg.capacity else 50, [])
    ensures Initial(cfg).events == []
  {
  }
}
