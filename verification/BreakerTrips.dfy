/** What makes a mechanism trip, which trips escalate, and how long an outage of the primary alone is tolerated. */
module BreakerTrips {
  import opened HealthWindows
  import opened Collections
  import opened Breaker
  import opened BreakerRuns

  // ---- Which trips escalate --------------------------------------------------------------

  /** The primary is invoked in this call, and raises. */
  predicate Raises<R>(p: Probe<R>) { p.healthy && p.attempt.Faults? }

  /** This call trips the primary. */
  predicate TripsPrimary<R>(cfg: Settings, s: State, p: Probe<R>, c: Probe<R>) {
    !Tripped(cfg, s, cfg.primary) && Tripped(cfg, Call(cfg, s, p, c).after, cfg.primary)
  }

  lemma {:induction false} OthersNeverEscalate<R>(cfg: Settings, s: State, cs: seq<Candidate<R>>)
    requires forall c <- cs :: !c.isPrimary
    ensures Escalations(Route(cfg, s, cs).after) == Escalations(s)
    decreases |cs|
  {
    if cs != [] {
      if Serves(cfg, s, cs[0]) {
        AnnounceCounts(Observe(s, cs[0].name, true), cs[0].name, Fault, OfKind(Escalated));
      } else {
        PassOverEscalates(cfg, s, cs[0]);
        OthersNeverEscalate(cfg, PassOver(cfg, s, cs[0]), cs[1..]);
      }
    }
  }

  lemma InvokedPrimaryEscalates<R>(cfg: Settings, s: State, c: Candidate<R>)
    requires c.isPrimary && c.name == cfg.primary && Serves(cfg, s, c)
    ensures var after := Invoke(cfg, s, c).after;
            Escalations(after) == Escalations(s)
                                + if c.probe.attempt.Faults? && Tripped(cfg, after, cfg.primary) then 1 else 0
  {
    AnnounceCounts(Observe(s, c.name, true), c.name, Fault, OfKind(Escalated));
    AnnounceCounts(RecordFault(s, c.name, Fault), c.name, Escalated, OfKind(Escalated));
  }

  /** A call announces an escalation exactly when it trips the primary by an invocation that raises. A primary
      tripped in any other way, by its own report or by a success, is passed over from then on in silence. */
  lemma {:induction false} EscalatesIffTrippedByRaising<R>(cfg: Settings, s: State, p: Probe<R>, c: Probe<R>)
    ensures Escalations(Call(cfg, s, p, c).after)
         == Escalations(s) + if TripsPrimary(cfg, s, p, c) && Raises(p) then 1 else 0
  {
    var cs := Candidates(cfg, p, c);
    if Serves(cfg, s, cs[0]) {
      InvokedPrimaryEscalates(cfg, s, cs[0]);
    } else {
      PassOverEscalates(cfg, s, cs[0]);
      OthersNeverEscalate(cfg, PassOver(cfg, s, cs[0]), cs[1..]);
      if Tripped(cfg, s, cfg.primary) { TrippedIsSkipped(cfg, s, cs, cfg.primary); }
    }
  }

  /** The calls of a run that trip the primary by an invocation that raises. */
  function RaisedTrips<R>(cfg: Settings, s: State, actions: seq<Action<R>>): nat
    decreases |actions|
  {
    if actions == [] then 0
    else
      var a := actions[0];
      (if a.Verify? && TripsPrimary(cfg, s, a.primary, a.conservative) && Raises(a.primary) then 1 else 0)
      + RaisedTrips(cfg, Step(cfg, s, a), actions[1..])
  }

  /** Over any run, resets included, the escalations announced are exactly the trips by raising. */
  lemma {:induction false} EscalationsAreRaisedTrips<R>(cfg: Settings, s: State, actions: seq<Action<R>>)
    ensures Escalations(Run(cfg, s, actions)) == Escalations(s) + RaisedTrips(cfg, s, actions)
    decreases |actions|
  {
    if actions != [] {
      var a := actions[0];
      if a.Verify? { EscalatesIffTrippedByRaising(cfg, s, a.primary, a.conservative); }
      EscalationsAreRaisedTrips(cfg, Step(cfg, s, a), actions[1..]);
    }
  }

  lemma {:induction false} NothingRaisedNothingTripped<R>(cfg: Settings, s: State, actions: seq<Action<R>>)
    requires forall a <- actions :: a.Verify? ==> !Raises(a.primary)
    ensures RaisedTrips(cfg, s, actions) == 0
    decreases |actions|
  {
    if actions != [] {
      assert actions[0] in actions;
      NothingRaisedNothingTripped(cfg, Step(cfg, s, actions[0]), actions[1..]);
    }
  }

  /** Under any settings that can trip, a primary that only reports itself unhealthy trips without an escalation. */
  lemma {:induction false} ReportsTripInSilence<R>(cfg: Settings, unhealthy: Probe<R>) returns (actions: seq<Action<R>>)
    requires CanTrip(cfg) && !unhealthy.healthy
    ensures Tripped(cfg, Run(cfg, Initial(cfg), actions), cfg.primary)
    ensures Escalations(Run(cfg, Initial(cfg), actions)) == 0
  {
    actions := seq(ExposureLimit(cfg), _ => Verify(unhealthy, unhealthy));
    WrongRunTrips(cfg, Initial(cfg), actions, cfg.primary);
    NothingRaisedNothingTripped(cfg, Initial(cfg), actions);
    EscalationsAreRaisedTrips(cfg, Initial(cfg), actions);
  }

  // ---- Trips by success ------------------------------------------------------------------

  lemma {:induction false} SuccessKeepsFaults(history: seq<bool>, capacity: nat)
    ensures FaultCount(LastN(history + [false], capacity)) <= FaultCount(LastN(history, capacity))
    ensures |history| < capacity ==> FaultCount(LastN(history + [false], capacity)) == FaultCount(history)
  {
    assert FaultCount([false]) == 0;
    if |history| < capacity {
      assert LastN(history + [false], capacity) == history + [false] && LastN(history, capacity) == history;
      FaultCountConcat(history, [false]);
    } else if 0 < capacity {
      var kept := LastN(history, capacity);
      assert LastN(history + [false], capacity) == kept[1..] + [false];
      FaultCountConcat(kept[1..], [false]);
    }
  }

  lemma ShareGrows(t: real, fewer: nat, more: nat, least: nat, most: nat)
    requires 0 < fewer <= more && least <= most
    requires most as real <= Share(t, fewer)
    ensures least as real <= Share(t, more)
  {
    if Share(t, more) < least as real { ShareOfPart(t, fewer, more, least); }
  }

  /** A success trips a mechanism in one case only: it is the observation that makes up the minimum, and the
      faults before it already exceed their share of that minimum. */
  lemma {:induction false} SuccessTripsIff(cfg: Settings, history: seq<bool>)
    requires !OverThreshold(cfg, LastN(history, cfg.capacity))
    ensures OverThreshold(cfg, LastN(history + [false], cfg.capacity))
            <==> && |history| + 1 == cfg.minObservations <= cfg.capacity
                 && Share(cfg.threshold, cfg.minObservations) < FaultCount(history) as real
  {
    var before, after := LastN(history, cfg.capacity), LastN(history + [false], cfg.capacity);
    SuccessKeepsFaults(history, cfg.capacity);
    if after != [] {
      RateExceeds(after, cfg.threshold);
      if before != [] {
        RateExceeds(before, cfg.threshold);
        if |before| >= cfg.minObservations {
          ShareGrows(cfg.threshold, |before|, |after|, FaultCount(after), FaultCount(before));
        }
      }
    }
  }

  lemma AnsweredStep<R>(cfg: Settings, s: State, answering: Probe<R>)
    requires answering.healthy && answering.attempt.Answers? && !Tripped(cfg, s, cfg.primary)
    ensures Call(cfg, s, answering, answering).after == Observe(s, cfg.primary, false)
  {
  }

  /** Answers below the minimum extend the primary's window and trip nothing. */
  lemma {:induction false} AnswersFill<R>(cfg: Settings, s: State, answering: Probe<R>, n: nat)
    requires answering.healthy && answering.attempt.Answers?
    requires |Lookup(s, cfg.primary).history| + n <= cfg.minObservations
    ensures var answers := seq(n, _ => Verify(answering, answering));
            Lookup(Run(cfg, s, answers), cfg.primary).history == Lookup(s, cfg.primary).history + Repeat(false, n)
    decreases n
  {
    var answers := seq(n, _ => Verify(answering, answering));
    if 0 < n {
      AnsweredStep(cfg, s, answering);
      assert answers[1..] == seq(n - 1, _ => Verify(answering, answering));
      AnswersFill(cfg, Step(cfg, s, answers[0]), answering, n - 1);
      assert [false] + Repeat(false, n - 1) == Repeat(false, n);
    }
  }

  /** Where a single fault exceeds its share of the minimum, as under the thresholds of v1.0, one raised fault
      followed by successes trips the primary with the last success, and no escalation is announced. */
  lemma {:induction false} SuccessTripsInSilence<R>(cfg: Settings, raising: Probe<R>, answering: Probe<R>)
      returns (actions: seq<Action<R>>)
    requires 2 <= cfg.minObservations <= cfg.capacity && Share(cfg.threshold, cfg.minObservations) < 1.0
    requires Raises(raising) && answering.healthy && answering.attempt.Answers?
    ensures |actions| == cfg.minObservations
    ensures Tripped(cfg, Run(cfg, Initial(cfg), actions), cfg.primary)
    ensures Escalations(Run(cfg, Initial(cfg), actions)) == 0
  {
    var first: Action<R> := Verify(raising, raising);
    var answers := seq(cfg.minObservations - 1, _ => Verify(answering, answering));
    actions := [first] + answers;
    var s := Step(cfg, Initial(cfg), first);
    assert actions[1..] == answers;
    OneFaultRecorded(cfg, raising);
    AnswersFill(cfg, s, answering, cfg.minObservations - 1);
    RunKeepsCapacity(cfg, Initial(cfg), actions, cfg.primary);
    OneFaultTrips(cfg);
    EscalationsAreRaisedTrips(cfg, s, answers);
    NothingRaisedNothingTripped(cfg, s, answers);
  }

  lemma {:induction false} RaisedStep<R>(cfg: Settings, s: State, raising: Probe<R>)
    requires Raises(raising) && !Tripped(cfg, s, cfg.primary)
    ensures Lookup(Call(cfg, s, raising, raising).after, cfg.primary) == AddFaults(Lookup(s, cfg.primary), 1)
  {
    var c := Candidate(cfg.primary, true, raising);
    WrongCandidate(cfg, s, c, cfg.primary);
    assert Call(cfg, s, raising, raising) == Invoke(cfg, s, c);
  }

  lemma {:induction false} OneFaultRecorded<R>(cfg: Settings, raising: Probe<R>)
    requires 2 <= cfg.minObservations && Raises(raising)
    ensures var after := Step(cfg, Initial(cfg), Verify(raising, raising));
            Lookup(after, cfg.primary).history == [true] && Escalations(after) == 0
  {
    RaisedStep(cfg, Initial(cfg), raising);
    EscalatesIffTrippedByRaising(cfg, Initial(cfg), raising, raising);
  }

  lemma OneFaultTrips(cfg: Settings)
    requires 1 <= cfg.minObservations <= cfg.capacity && Share(cfg.threshold, cfg.minObservations) < 1.0
    ensures OverThreshold(cfg, LastN([true] + Repeat(false, cfg.minObservations - 1), cfg.capacity))
  {
    var outcomes := [true] + Repeat(false, cfg.minObservations - 1);
    RepeatCount(false, cfg.minObservations - 1);
    RateExceeds(outcomes, cfg.threshold);
  }

  // ---- An outage of the primary alone ----------------------------------------------------

  predicate PrimaryGoesWrong<R>(a: Action<R>) { a.Verify? && GoesWrong(a.primary) }

  lemma {:induction false} RouteSpares<R>(cfg: Settings, s: State, cs: seq<Candidate<R>>, name: string)
    requires forall c <- cs :: c.name != name
    ensures Lookup(Route(cfg, s, cs).after, name) == Lookup(s, name)
    decreases |cs|
  {
    if cs != [] {
      assert cs[0] in cs;
      if !Serves(cfg, s, cs[0]) {
        RouteSpares(cfg, PassOver(cfg, s, cs[0]), cs[1..], name);
      }
    }
  }

  ghost predicate CallsOnly<R>(actions: seq<Action<R>>) { forall a <- actions :: a.Verify? }

  /** What the calls of a run would each record of the primary, were it standing: a fault where it goes wrong. */
  function PrimaryOutcomes<R>(calls: seq<Action<R>>): (outcomes: seq<bool>)
    requires CallsOnly(calls)
    ensures |outcomes| == |calls|
  {
    seq(|calls|, i requires 0 <= i < |calls| => assert calls[i] in calls; GoesWrong(calls[i].primary))
  }

  lemma OutcomesInParts<R>(calls: seq<Action<R>>, others: seq<Action<R>>)
    requires CallsOnly(calls) && CallsOnly(others)
    ensures CallsOnly(calls + others)
    ensures PrimaryOutcomes(calls + others) == PrimaryOutcomes(calls) + PrimaryOutcomes(others)
  {
  }

  lemma {:induction false} PrimaryCallRecords<R>(cfg: Settings, s: State, a: Action<R>)
    requires a.Verify? && !Tripped(cfg, s, cfg.primary) && cfg.conservative != Some(cfg.primary)
    ensures Lookup(Step(cfg, s, a), cfg.primary) == Extended(Lookup(s, cfg.primary), [GoesWrong(a.primary)])
  {
    var cs := Candidates(cfg, a.primary, a.conservative);
    if !Serves(cfg, s, cs[0]) {
      RouteSpares(cfg, PassOver(cfg, s, cs[0]), cs[1..], cfg.primary);
    }
  }

  function Extended(w: Window, outcomes: seq<bool>): Window { w.(history := w.history + outcomes) }

  /** A window is, or comes to be, over the threshold as further outcomes are recorded in it one by one. */
  predicate OverWithin(cfg: Settings, w: Window, outcomes: seq<bool>)
    decreases |outcomes|
  {
    || OverThreshold(cfg, w.Outcomes())
    || (outcomes != [] && OverWithin(cfg, Extended(w, [outcomes[0]]), outcomes[1..]))
  }

  predicate OverAfter(cfg: Settings, w: Window, outcomes: seq<bool>, k: nat)
    requires k <= |outcomes|
  {
    OverThreshold(cfg, LastN(w.history + outcomes[..k], w.capacity))
  }

  lemma {:induction false} OverWithinSome(cfg: Settings, w: Window, outcomes: seq<bool>) returns (k: nat)
    requires OverWithin(cfg, w, outcomes)
    ensures k <= |outcomes| && OverAfter(cfg, w, outcomes, k)
    decreases |outcomes|
  {
    if OverThreshold(cfg, w.Outcomes()) {
      k := 0;
      assert w.history + outcomes[..0] == w.history;
    } else {
      var later := OverWithinSome(cfg, Extended(w, [outcomes[0]]), outcomes[1..]);
      k := later + 1;
      assert w.history + outcomes[..k] == (w.history + [outcomes[0]]) + outcomes[1..][..later];
    }
  }

  lemma {:induction false} OverAfterWithin(cfg: Settings, w: Window, outcomes: seq<bool>, k: nat)
    requires k <= |outcomes| && OverAfter(cfg, w, outcomes, k)
    ensures OverWithin(cfg, w, outcomes)
    decreases k
  {
    if k == 0 {
      assert w.history + outcomes[..0] == w.history;
    } else {
      assert w.history + outcomes[..k] == (w.history + [outcomes[0]]) + outcomes[1..][..k - 1];
      OverAfterWithin(cfg, Extended(w, [outcomes[0]]), outcomes[1..], k - 1);
    }
  }

  /** That is: the last outcomes it keeps of its history and the first few of these are over the threshold. */
  lemma {:induction false} OverWithinMeaning(cfg: Settings, w: Window, outcomes: seq<bool>)
    ensures OverWithin(cfg, w, outcomes) <==> exists k :: 0 <= k <= |outcomes| && OverAfter(cfg, w, outcomes, k)
  {
    if OverWithin(cfg, w, outcomes) {
      var k := OverWithinSome(cfg, w, outcomes);
    }
    if k :| 0 <= k <= |outcomes| && OverAfter(cfg, w, outcomes, k) {
      OverAfterWithin(cfg, w, outcomes, k);
    }
  }

  /** Whatever the conservative mechanism does, the primary is tripped after some calls exactly when its own window,
      with what these calls record of it, is over the threshold after one of them; until then the window holds
      precisely that record. */
  lemma {:induction false} PrimaryTripsIff<R>(cfg: Settings, s: State, calls: seq<Action<R>>)
    requires cfg.conservative != Some(cfg.primary) && CallsOnly(calls)
    ensures var w, outcomes, after := Lookup(s, cfg.primary), PrimaryOutcomes(calls), Run(cfg, s, calls);
            && (Tripped(cfg, after, cfg.primary) <==> OverWithin(cfg, w, outcomes))
            && (!Tripped(cfg, after, cfg.primary) ==> Lookup(after, cfg.primary) == Extended(w, outcomes))
    decreases |calls|
  {
    var w, outcomes := Lookup(s, cfg.primary), PrimaryOutcomes(calls);
    if Tripped(cfg, s, cfg.primary) {
      TrippedStaysTripped(cfg, s, calls, cfg.primary);
    } else if calls != [] {
      assert calls[0] in calls;
      assert outcomes[1..] == PrimaryOutcomes(calls[1..]);
      PrimaryCallRecords(cfg, s, calls[0]);
      PrimaryTripsIff(cfg, Step(cfg, s, calls[0]), calls[1..]);
      ExtendedTwice(w, [outcomes[0]], outcomes[1..]);
      assert outcomes == [outcomes[0]] + outcomes[1..];
    } else {
      assert w.history + outcomes == w.history;
    }
  }

  lemma ExtendedTwice(w: Window, outcomes: seq<bool>, more: seq<bool>)
    ensures Extended(Extended(w, outcomes), more) == Extended(w, outcomes + more)
  {
    assert (w.history + outcomes) + more == w.history + (outcomes + more);
  }

  /** After any run at all, an exposure limit of calls in which the primary goes wrong, among as many calls as a
      window keeps, trips it, whatever the other calls and the conservative mechanism do; and then, through any
      further actions but its reset, no call invokes it. */
  lemma {:induction false} IntermittentFaultsTrip<R>(
      cfg: Settings, before: seq<Action<R>>, calls: seq<Action<R>>, after: seq<Action<R>>)
    requires CanTrip(cfg) && cfg.conservative != Some(cfg.primary) && CallsOnly(calls) && |calls| <= cfg.capacity
    requires ExposureLimit(cfg) <= FaultCount(PrimaryOutcomes(calls)) && Reset(cfg.primary) !in after
    ensures var s := Run(cfg, Initial(cfg), before + calls + after);
            && Tripped(cfg, s, cfg.primary)
            && forall p: Probe<R>, c: Probe<R> :: forall invoked <- Call(cfg, s, p, c).invoked ::
                 invoked.name != cfg.primary
  {
    var s0, outcomes := Run(cfg, Initial(cfg), before), PrimaryOutcomes(calls);
    RunConcat(cfg, Initial(cfg), before, calls);
    RunConcat(cfg, Initial(cfg), before + calls, after);
    RunKeepsCapacity(cfg, Initial(cfg), before, cfg.primary);
    IntermittentExposure(cfg, Lookup(s0, cfg.primary).history, outcomes);
    assert outcomes[..|outcomes|] == outcomes;
    OverAfterWithin(cfg, Lookup(s0, cfg.primary), outcomes, |outcomes|);
    PrimaryTripsIff(cfg, s0, calls);
    TrippedStaysTripped(cfg, Run(cfg, s0, calls), after, cfg.primary);
  }

  /** In particular so does an exposure limit of consecutive calls in which the primary goes wrong. */
  lemma {:induction false} PrimaryOutageTrips<R>(cfg: Settings, before: seq<Action<R>>, wrong: seq<Action<R>>)
    requires CanTrip(cfg) && cfg.conservative != Some(cfg.primary)
    requires ExposureLimit(cfg) <= |wrong| && forall a <- wrong :: PrimaryGoesWrong(a)
    ensures var s := Run(cfg, Initial(cfg), before + wrong);
            && Tripped(cfg, s, cfg.primary)
            && forall p: Probe<R>, c: Probe<R> :: forall invoked <- Call(cfg, s, p, c).invoked ::
                 invoked.name != cfg.primary
  {
    var limit := ExposureLimit(cfg);
    var first, rest := wrong[..limit], wrong[limit..];
    LimitFits(cfg);
    assert forall i :: 0 <= i < limit ==> first[i] in wrong;
    assert wrong == first + rest && Reset(cfg.primary) !in wrong;
    assert PrimaryOutcomes(first) == Repeat(true, limit);
    RepeatCount(true, limit);
    assert before + wrong == before + first + rest;
    IntermittentFaultsTrip(cfg, before, first, rest);
  }

  // ---- Two mechanisms under one name -----------------------------------------------------

  /** A fault, a success, a fault, and so on. */
  function Alternating(n: nat): seq<bool> { seq(n, i => i % 2 == 0) }

  /** In a shared window a call records the primary's unhealthy report and then the conservative mechanism's
      success, unless the report trips them both. */
  lemma {:induction false} SharedCallRecords<R>(cfg: Settings, s: State, unhealthy: Probe<R>, answering: Probe<R>)
    requires cfg.conservative == Some(cfg.primary) && !Tripped(cfg, s, cfg.primary)
    requires !unhealthy.healthy && answering.healthy && answering.attempt.Answers?
    ensures var w, after := Lookup(s, cfg.primary), Call(cfg, s, unhealthy, answering).after;
            Lookup(after, cfg.primary)
            == Extended(w, if OverThreshold(cfg, Extended(w, [true]).Outcomes()) then [true] else [true, false])
  {
    var cs, w := Candidates(cfg, unhealthy, answering), Lookup(s, cfg.primary);
    var faulted := PassOver(cfg, s, cs[0]);
    assert Lookup(faulted, cfg.primary) == Extended(w, [true]);
    assert cs[1..] == [cs[1]] && cs[1..][1..] == [];
    assert Call(cfg, s, unhealthy, answering) == Route(cfg, faulted, [cs[1]]);
    if Serves(cfg, faulted, cs[1]) {
      assert Route(cfg, faulted, [cs[1]]) == Invoke(cfg, faulted, cs[1]);
      assert w.history + [true] + [false] == w.history + [true, false];
    } else {
      AllTrippedRefuses(cfg, faulted, [cs[1]]);
    }
  }

  function SharedCalls<R>(unhealthy: Probe<R>, answering: Probe<R>, n: nat): seq<Action<R>> {
    seq(n, _ => Verify(unhealthy, answering))
  }

  lemma {:induction false} AlternatingUnfolds(cfg: Settings, w: Window, n: nat)
    requires 0 < n
    ensures OverWithin(cfg, w, Alternating(2 * n)) <==>
              || OverThreshold(cfg, w.Outcomes())
              || OverThreshold(cfg, Extended(w, [true]).Outcomes())
              || OverWithin(cfg, Extended(w, [true, false]), Alternating(2 * n - 2))
  {
    var outcomes := Alternating(2 * n);
    assert outcomes[1..][1..] == Alternating(2 * n - 2);
    ExtendedTwice(w, [true], [false]);
    assert [true] + [false] == [true, false];
  }

  lemma {:induction false} SharedStep<R>(cfg: Settings, s: State, unhealthy: Probe<R>, answering: Probe<R>, n: nat)
    requires cfg.conservative == Some(cfg.primary) && !Tripped(cfg, s, cfg.primary) && 0 < n
    requires !unhealthy.healthy && answering.healthy && answering.attempt.Answers?
    ensures var after := Call(cfg, s, unhealthy, answering).after;
            OverWithin(cfg, Lookup(s, cfg.primary), Alternating(2 * n))
            <==> Tripped(cfg, after, cfg.primary) || OverWithin(cfg, Lookup(after, cfg.primary), Alternating(2 * n - 2))
  {
    SharedCallRecords(cfg, s, unhealthy, answering);
    AlternatingUnfolds(cfg, Lookup(s, cfg.primary), n);
  }

  lemma SharedCallsTail<R>(unhealthy: Probe<R>, answering: Probe<R>, n: nat)
    requires 0 < n
    ensures SharedCalls(unhealthy, answering, n)[0] == Verify(unhealthy, answering)
    ensures SharedCalls(unhealthy, answering, n)[1..] == SharedCalls(unhealthy, answering, n - 1)
  {
  }

  /** Such calls trip the shared mechanisms only if alternating outcomes bring their window over the threshold. */
  lemma {:induction false} SharedRunTripped<R>(
      cfg: Settings, s: State, unhealthy: Probe<R>, answering: Probe<R>, n: nat)
    requires cfg.conservative == Some(cfg.primary)
    requires !unhealthy.healthy && answering.healthy && answering.attempt.Answers?
    requires Tripped(cfg, Run(cfg, s, SharedCalls(unhealthy, answering, n)), cfg.primary)
    ensures OverWithin(cfg, Lookup(s, cfg.primary), Alternating(2 * n))
    decreases n
  {
    if !Tripped(cfg, s, cfg.primary) {
      var calls, after := SharedCalls(unhealthy, answering, n), Call(cfg, s, unhealthy, answering).after;
      assert 0 < n;
      SharedCallsTail(unhealthy, answering, n);
      assert Run(cfg, s, calls) == Run(cfg, after, calls[1..]);
      SharedRunTripped(cfg, after, unhealthy, answering, n - 1);
      SharedStep(cfg, s, unhealthy, answering, n);
    }
  }

  /** And if they do, enough such calls trip them. */
  lemma {:induction false} SharedRunTrips<R>(
      cfg: Settings, s: State, unhealthy: Probe<R>, answering: Probe<R>, n: nat)
    requires cfg.conservative == Some(cfg.primary)
    requires !unhealthy.healthy && answering.healthy && answering.attempt.Answers?
    requires OverWithin(cfg, Lookup(s, cfg.primary), Alternating(2 * n))
    ensures Tripped(cfg, Run(cfg, s, SharedCalls(unhealthy, answering, n)), cfg.primary)
    decreases n
  {
    var calls := SharedCalls(unhealthy, answering, n);
    if Tripped(cfg, s, cfg.primary) {
      TrippedStaysTripped(cfg, s, calls, cfg.primary);
    } else {
      SharedCallsTail(unhealthy, answering, n);
      SharedStep(cfg, s, unhealthy, answering, n);
      var after := Call(cfg, s, unhealthy, answering).after;
      if Tripped(cfg, after, cfg.primary) {
        TrippedStaysTripped(cfg, after, calls[1..], cfg.primary);
      } else {
        SharedRunTrips(cfg, after, unhealthy, answering, n - 1);
      }
    }
  }

  predicate AlternatingTrips(cfg: Settings, k: nat) { OverThreshold(cfg, LastN(Alternating(k), cfg.capacity)) }

  lemma {:induction false} AlternatingOverAfter(cfg: Settings, n: nat, k: nat)
    requires k <= n
    ensures OverAfter(cfg, Window(cfg.capacity, []), Alternating(n), k) <==> AlternatingTrips(cfg, k)
  {
    assert [] + Alternating(n)[..k] == Alternating(k);
  }

  lemma {:induction false} AlternatingFaults(n: nat, first: nat)
    ensures FaultCount(seq(n, i => (first + i) % 2 == 0)) == if first % 2 == 0 then (n + 1) / 2 else n / 2
    decreases n
  {
    var outcomes := seq(n, i => (first + i) % 2 == 0);
    if 0 < n {
      assert outcomes[1..] == seq(n - 1, i => (first + 1 + i) % 2 == 0);
      AlternatingFaults(n - 1, first + 1);
    }
  }

  /** Half of the observations in some window, rounded up, exceeds their share. */
  predicate HalfExceeds(cfg: Settings, n: nat) {
    1 <= n && cfg.minObservations <= n <= cfg.capacity && Share(cfg.threshold, n) < ((n + 1) / 2) as real
  }

  lemma {:induction false} AlternatingTripsMeaning(cfg: Settings, k: nat)
    requires 1 <= cfg.capacity
    ensures AlternatingTrips(cfg, k) ==> exists n :: HalfExceeds(cfg, n)
    ensures HalfExceeds(cfg, k) ==> AlternatingTrips(cfg, k)
  {
    var n := if k < cfg.capacity then k else cfg.capacity;
    var kept := LastN(Alternating(k), cfg.capacity);
    assert kept == seq(n, i => (k - n + i) % 2 == 0);
    AlternatingFaults(n, k - n);
    if kept != [] {
      RateExceeds(kept, cfg.threshold);
      if AlternatingTrips(cfg, k) { assert HalfExceeds(cfg, n); }
    } else if AlternatingTrips(cfg, k) {
      assert Share(cfg.threshold, 1) == cfg.threshold;
      assert HalfExceeds(cfg, 1);
    }
  }

  /** Where the two mechanisms share a name and so a window, a primary that always reports itself unhealthy beside a
      conservative mechanism that always answers is tripped in the end exactly when half of some admissible number
      of observations, rounded up, exceeds their share. Otherwise the outage lasts, for any number of calls. */
  lemma {:induction false} SharedNameTripsIff<R>(cfg: Settings, unhealthy: Probe<R>, answering: Probe<R>)
    requires cfg.conservative == Some(cfg.primary) && 1 <= cfg.capacity
    requires !unhealthy.healthy && answering.healthy && answering.attempt.Answers?
    ensures (exists n: nat :: Tripped(cfg, Run(cfg, Initial(cfg), SharedCalls(unhealthy, answering, n)), cfg.primary))
            <==> exists n: nat :: HalfExceeds(cfg, n)
  {
    var empty := Window(cfg.capacity, []);
    if n: nat :| Tripped(cfg, Run(cfg, Initial(cfg), SharedCalls(unhealthy, answering, n)), cfg.primary) {
      SharedRunTripped(cfg, Initial(cfg), unhealthy, answering, n);
      var k := OverWithinSome(cfg, empty, Alternating(2 * n));
      AlternatingOverAfter(cfg, 2 * n, k);
      AlternatingTripsMeaning(cfg, k);
    }
    if n: nat :| HalfExceeds(cfg, n) {
      AlternatingTripsMeaning(cfg, n);
      AlternatingOverAfter(cfg, 2 * n, n);
      OverAfterWithin(cfg, empty, Alternating(2 * n), n);
      SharedRunTrips(cfg, Initial(cfg), unhealthy, answering, n);
    }
  }
}
