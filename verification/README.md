# A verified model of the executable-trust governance runtime

The runtime answers a question only under a ratified trust contract, and only with claims that a verifier found
supported by the evidence retrieved for that request. Everything else is a refusal carrying a controlled reason
code. Around that decision stand a circuit breaker for the verification mechanisms, an append-only lifecycle for
decision records, a telemetry path that may fail without consequence, and an offline evaluation gate.

This project models those parts in Dafny and proves what they keep over every request, every run and every contract.
`dafny verify dfyconfig.toml` checks all of it.

## How it is organized

| area | modules | main results |
|---|---|---|
| circuit breaker | `HealthWindows`, `Breaker`, `BreakerRuns`, `BreakerTrips`, `BreakerEvents`, `ResilientVerifiers`, `BreakerClients` | a tripped mechanism stays tripped; escalations are exactly the trips by an invocation that raises; an exact bound on consecutive faults, for consecutive and for intermittent faults; exactly when the primary trips, whatever the other mechanism does; persistent faults end in refusal |
| lifecycle | `Lifecycle`, `LifecycleLog`, `LifecycleRuns`, `LifecycleMachine`, `LifecycleAnswers` | every run walks the declared graph and every walk is recorded by some run; exactly which requests are recorded, and which refusal the others get; the projection is replay and is never rewritten; ranked contracts terminate |
| coherence validator | `LifecycleCoherence`, `LifecycleReachability` | what coherence says about real reachability; what it leaves the record's own validators to catch; the v1.0 lifecycle |
| claims and decision | `Domain`, `Claims`, `DecisionFunction`, `DecisionAnswers` | the whole decision on every response, from the raw claims, and its uniqueness; order and splitting laws |
| evidence and keyword verifier | `Evidence`, `KeywordText`, `TextLaws`, `KeywordVerifier`, `ShippedKeywords` | laws of the ranked window; the gate in terms of the whole set; soundness and completeness of keyword grounding, for any lexicon and for the shipped one in terms of the text itself |
| governed path | `Identifiers`, `DecisionRecords`, `Telemetry`, `ServiceModel`, `TrustServices`, `ServiceRuns`, `ServiceAnswers`, `TelemetryRuns`, `TelemetryStory` | generation exactly when permitted; the whole answer to every request; one record for each request; telemetry cannot influence decisions, and exactly which events it captures |
| compositions | `ResilientService`, `KeywordService` | breaker and keyword results carried through to requests |
| arithmetic | `Rounding`, `EvaluationGate`, `Metrics`, `MetricsMeaning` | what a rounded gate demands; what each count counts and each percentile reads, over the events; rank of a percentile |

The objects that the program updates in place are classes here (`HealthWindow`, `ResilientVerifier`,
`InMemoryTransitionLog`, `LifecycleStateMachine`, `ValidationReport`, `SequentialIdFactory`, `FixedClock`,
`InMemoryDecisionStore`, `TelemetryStore`, `TelemetryRecorder`, `TrustService`), and its loops are loops. Each method
is proved to produce the state that a specification function gives (`Breaker.Call`, `Lifecycle.Attempt`,
`ServiceModel.Handle`, ...); the theorems over runs are proved of those functions, so they hold of the objects.
`BreakerClients.Exercise` takes a breaker object through any sequence of calls and resets to the state of the run.

## Conventions

- Mechanism health, invocation outcomes, generators, verifiers and authorizers are arbitrary at every step. A
  verifier either responds or raises `VerifierFailure` with a reason code, controlled or not.
- Rates, thresholds and scores are exact reals or exact ratios. Rounding is a relation, "within half a unit": a tie
  may fall either way.
- Case folding is a parameter of the keyword lexicon. Everything proved of the keyword verifier holds for any way of
  splitting text into non-blank sentences and significant words; `ShippedKeywords` restates it for the shipped one
  in terms of the text.
- Mechanism names are constant. The primary and the conservative mechanism are different objects. Only the results
  on faults of the primary alone assume that their names differ. Under one name the two share a window, and whether
  an outage of one beside a working other ever trips it depends on the settings: `BreakerTrips.SharedNameTripsIff`
  says for which it does (the v1.0 thresholds are among them) and for which it never does.
- A telemetry store is described by which of its writes fail: none, all, or any pattern.

## Where the code and its documentation disagree

The model follows the code. The last point is a limit a reader of the documentation could miss rather than a
contradiction of it.

- **Undeclared transitions at the persistence boundary.** ET-LC-005 and the state machine's documentation say that the
  persistence boundary rejects transitions the contract does not declare. The log checks only the position.
  `LifecycleLog.AppendAcceptsExactlyNext` states exactly what it accepts, `LifecycleReachability.LogAcceptsUndeclared`
  gives an undeclared transition that it takes, and `LifecycleRuns.AppendLegalIff` states when an append keeps the log
  legal. Legality over runs is the machine's doing (`LifecycleRuns.RunsWalk`).
- **The baseline gate.** ET-EVAL-001 says the gate requires a perfect pass rate. The rate is rounded to four decimals
  before it is compared, so that holds exactly for suites of fewer than 20000 cases
  (`EvaluationGate.PerfectionDemandedIff`); in larger suites one failure is rounded away.
- **Reachability of lifecycle states.** The validator says every declared state is reachable, and tests that it is
  initial or the target of some edge. With a cycle, or with an edge from an undeclared state, a contract can pass with
  states that cannot be reached (`LifecycleReachability.CyclesPassTheValidator`,
  `LifecycleReachability.UndeclaredSourcesPassTheValidator`); without either, the test means what it says
  (`LifecycleReachability.CoherentAcyclicReachable`). `LifecycleReachability.AllReachableIffUnsealed` gives the exact
  condition.
- **Percentiles** are described as nearest-rank. With twelve latencies the 95th is read at rank 11 where the nearest
  rank is 12 (`Metrics.NearestRankMissed`). The rank read is the nearest rank exactly when the exact share of the
  sample is a whole rank or more than halfway to the next, and one below it otherwise; at a tie it is what the tie is
  rounded to (`Metrics.NearestRankIff`). With ties to even this is a condition on the sample size alone: the median is
  at the nearest rank exactly on samples that are even, one short of a multiple of four, or a single latency
  (`Metrics.MedianNearestIff`); `Metrics.NinetyFifthNearestIff` is the same for the 95th.
- **Escalation.** ET-RES-001 has the system escalate when the primary's fault rate exceeds the threshold, and health
  events are described as recording changes in which mechanism serves. Traffic does move whenever the primary trips,
  but an escalation is announced exactly when the trip is made by an invocation that raises (`BreakerTrips.EscalatesIffTrippedByRaising`, `BreakerTrips.EscalationsAreRaisedTrips`). A
  primary tripped by its own unhealthy reports is passed over in silence (`BreakerTrips.ReportsTripInSilence`), and so
  is one tripped by a success that brings its window up to the minimum, as one fault and four successes do under the
  v1.0 thresholds (`BreakerTrips.SuccessTripsInSilence`); `BreakerTrips.SuccessTripsIff` states when a success trips.
- **Identifier factory reset.** Resetting the factory under a decision store in use makes the next request fail:
  the store refuses the reissued identifier (`ServiceRuns.ResetFactoryIsRefused`).

## Model

| member | source | states |
|---|---|---|
| `HealthWindows.HealthWindow.constructor` | src/executable_trust/verification/resilience.py:40-44 | A new window has recorded nothing and keeps the given number of outcomes. |
| `HealthWindows.HealthWindow.Record` | src/executable_trust/verification/resilience.py:46-47 | The outcomes held stay the last `capacity` of everything recorded since the last reset. |
| `HealthWindows.HealthWindow.Reset` | src/executable_trust/verification/resilience.py:69-70 | A reset forgets the whole history and keeps the capacity. |
| `HealthWindows.HealthWindow.Faults` | src/executable_trust/verification/resilience.py:53-55 | The faults reported are those among the last `capacity` outcomes recorded. |
| `HealthWindows.HealthWindow.Rate` | src/executable_trust/verification/resilience.py:57-67 | The rate reported is that of the last `capacity` outcomes recorded, and zero for none. |
| `HealthWindows.RateExceeds` | src/executable_trust/verification/resilience.py:67-67 | The quotient exceeds a bar exactly when the fault count exceeds that share of the observations. |
| `Breaker.FirstEligibleServes` | src/executable_trust/verification/resilience.py:153-172 | The first eligible candidate is the only one invoked and decides the outcome; the call is refused exactly when none is eligible, and then nobody is invoked. |
| `Breaker.ResponseHasAServer` | src/executable_trust/verification/resilience.py:153-167 | A returned response is what the single mechanism invoked in that call answered, and that mechanism was neither tripped nor unhealthy. |
| `Breaker.FailureHasAServer` | src/executable_trust/verification/resilience.py:159-165 | A failed call failed in the single mechanism invoked, untripped and healthy, and reports the code that mechanism raised. |
| `Breaker.ConservativeOnlyInstead` | src/executable_trust/verification/resilience.py:153-179 | Only configured mechanisms are invoked, and the conservative one only when the primary was tripped or reported itself unhealthy. |
| `BreakerRuns.TrippedStaysTripped` | src/executable_trust/verification/resilience.py:92-95 | Once tripped and until reset, a mechanism's window never changes and it is never invoked again, whatever the later health, faults and successes. |
| `BreakerRuns.EscalationsBounded` | src/executable_trust/verification/resilience.py:161-165 | Over any run, escalations are bounded by whether the primary ends up newly tripped plus the number of times it was reset; `BreakerTrips.EscalationsAreRaisedTrips` says which trips they are. |
| `BreakerRuns.EscalatesAtMostOnce` | src/executable_trust/verification/resilience.py:92-95 | Without resets of the primary there is at most one escalation, and after it the primary never serves. |
| `BreakerRuns.EscalationsJustified` | src/executable_trust/verification/resilience.py:195-208 | Every escalation event names the primary and reports a rate over the threshold on enough observations. |
| `BreakerTrips.EscalatesIffTrippedByRaising` | src/executable_trust/verification/resilience.py:153-167 | A call announces one escalation exactly when it trips the primary by an invocation that raises, and none otherwise. |
| `BreakerTrips.EscalationsAreRaisedTrips` | src/executable_trust/verification/resilience.py:161-165 | Over any run, resets included, the escalations announced are exactly the trips of the primary by raising. |
| `BreakerTrips.ReportsTripInSilence` | src/executable_trust/verification/resilience.py:156-158 | Under any settings that can trip, a primary that only reports itself unhealthy trips with no escalation. |
| `BreakerTrips.SuccessTripsIff` | src/executable_trust/verification/resilience.py:130-140 | A success trips a mechanism if and only if it makes up the minimum number of observations and the faults before it exceed their share of that minimum. |
| `BreakerTrips.SuccessTripsInSilence` | src/executable_trust/verification/resilience.py:166-167 | Where one fault exceeds its share of the minimum, a raised fault followed by successes trips the primary with no escalation. |
| `BreakerEvents.CallEventsReport` | src/executable_trust/verification/resilience.py:181-208 | A call only appends events, and each reports the fault rate and observation count of its mechanism's window as the call leaves it. |
| `BreakerEvents.CallAnnouncesPrimary` | src/executable_trust/verification/resilience.py:153-165 | Of the primary a call announces an unhealthy report exactly when it is untripped and reports itself unhealthy, and a fault exactly when it is invoked and raises. |
| `BreakerEvents.CallAnnouncesConservative` | src/executable_trust/verification/resilience.py:153-165 | The same of the conservative mechanism, which is considered exactly when the primary is tripped or unhealthy. |
| `BreakerEvents.ResetRestores` | src/executable_trust/verification/resilience.py:69-70 | A reset empties one window and no other, announces nothing, and puts the mechanism back in service wherever a minimum of observations is asked for. |
| `BreakerEvents.NewBreaker` | src/executable_trust/verification/resilience.py:109-128 | A new breaker has an empty window of the configured capacity for each mechanism, would give any other one of 50, and no events. |
| `BreakerRuns.FaultEventsMatchRecordedFaults` | src/executable_trust/verification/resilience.py:181-193 | Over any run without a reset of it, a mechanism's fault events are as many as the faults recorded in its history. |
| `BreakerRuns.ExposureBounded` | src/executable_trust/verification/resilience.py:130-140 | From any history of a window, max(minimum, floor(threshold * capacity) + 1) further consecutive faults put it over the bar; `BreakerTrips.PrimaryOutageTrips` and `BreakerRuns.PersistentFaultsEndInRefusal` carry this to runs of calls. |
| `BreakerRuns.ExposureBoundTight` | src/executable_trust/verification/resilience.py:130-140 | The bound is exact: some untripped history survives one fault fewer. |
| `BreakerRuns.TripsIffConfigured` | src/executable_trust/verification/resilience.py:133-140 | Some history trips the breaker if and only if the minimum fits in the window and the threshold is below one. |
| `BreakerRuns.IntermittentExposure` | src/executable_trust/verification/resilience.py:130-140 | From any history, an exposure limit of faults among as many further outcomes as the window keeps puts it over the bar, wherever they fall. |
| `BreakerTrips.PrimaryTripsIff` | src/executable_trust/verification/resilience.py:144-172 | Whatever the conservative mechanism does, the primary is tripped after some calls if and only if its own window is over the bar after one of the outcomes these calls record of it; until then the window holds exactly those outcomes. |
| `BreakerTrips.IntermittentFaultsTrip` | src/executable_trust/verification/resilience.py:144-172 | After any run, an exposure limit of calls in which the primary goes wrong, among as many calls as a window keeps, trips it for good: through any further actions but its reset no call invokes it. |
| `BreakerTrips.PrimaryOutageTrips` | src/executable_trust/verification/resilience.py:144-172 | In particular so does an exposure limit of consecutive calls in which the primary goes wrong. |
| `BreakerTrips.SharedNameTripsIff` | src/executable_trust/verification/resilience.py:109-113 | Were both mechanisms to share a name and so a window, an unhealthy primary beside an answering conservative mechanism would be tripped in the end if and only if half of some admissible number of observations, rounded up, exceeds its share; otherwise never. |
| `BreakerRuns.PersistentFaultsEndInRefusal` | src/executable_trust/verification/resilience.py:144-172 | After any run, twice the exposure limit of calls whose every attempt goes wrong leaves no mechanism standing: each later call refuses, invokes nobody and changes nothing. |
| `BreakerRuns.RunKeepsCapacity` | src/executable_trust/verification/resilience.py:109-113 | No run changes how much a mechanism's window keeps. |
| `ResilientVerifiers.ResilientVerifier.constructor` | src/executable_trust/verification/resilience.py:98-114 | A new breaker represents the initial state: an empty window of the configured capacity for each mechanism, and no events. |
| `ResilientVerifiers.ResilientVerifier.Health` | src/executable_trust/verification/resilience.py:127-128 | Asking for an unknown mechanism's window creates one of the default capacity and disturbs no other. |
| `ResilientVerifiers.ResilientVerifier.IsTripped` | src/executable_trust/verification/resilience.py:130-140 | Answers whether the breaker's test holds of the represented state, which at most gains an empty window. |
| `ResilientVerifiers.ResilientVerifier.Invoke` | src/executable_trust/verification/resilience.py:159-167 | One invocation and its records are those of the specified step, escalation included. |
| `ResilientVerifiers.ResilientVerifier.RecordFault` | src/executable_trust/verification/resilience.py:181-193 | A recorded fault enters its mechanism's window and is announced with the rate and count after it. |
| `ResilientVerifiers.ResilientVerifier.Verify` | src/executable_trust/verification/resilience.py:144-172 | The loop over candidates leaves the object, gives the outcome and invokes exactly as the specified call does, on the windows it had. |
| `ResilientVerifiers.ResilientVerifier.Reset` | src/executable_trust/verification/resilience.py:127-128 | Resetting a window obtained from the breaker clears that window in the represented state; every other window stays, and an unknown mechanism's is new. |
| `BreakerClients.Exercise` | src/executable_trust/verification/resilience.py:84-114 | A new breaker object taken through any sequence of calls and resets ends in the state of the specified run. |
| `LifecycleLog.ForDecisionIsFilter` | src/executable_trust/lifecycle/history.py:62-69 | On any log the append accepts, the sort in the query is the identity on the decision's transitions. |
| `LifecycleLog.KeysOfHistory` | src/executable_trust/lifecycle/history.py:42-43 | The positions seen for a decision are exactly 1 to the length of its history. |
| `LifecycleLog.AppendAcceptsExactlyNext` | src/executable_trust/lifecycle/history.py:45-58 | The log accepts exactly position n + 1, whatever the transition says; the duplicate check fires exactly on 1 to n. |
| `LifecycleLog.AppendKeepsContiguous` | src/executable_trust/lifecycle/history.py:34-38 | An accepted append keeps every decision's positions contiguous and leaves other decisions' histories as they were. |
| `LifecycleLog.InMemoryTransitionLog.Append` | src/executable_trust/lifecycle/history.py:45-60 | The object's append agrees with the specified acceptance and keeps the seen set equal to the keys of the log; a refused append changes nothing. |
| `LifecycleRuns.WalkMeaning` | src/executable_trust/lifecycle/state_machine.py:81-118 | A history is a walk exactly when its positions count from one and every step is legal where it was taken. |
| `LifecycleRuns.AppendLegalIff` | src/executable_trust/lifecycle/history.py:45-60 | An accepted append keeps the log legal if and only if the transition is a legal step from the decision's current state. |
| `LifecycleRuns.AttemptKeepsLegal` | src/executable_trust/lifecycle/state_machine.py:81-135 | A request on a legal log never meets a history conflict; it records one legal step or nothing, and touches no other decision. |
| `LifecycleRuns.RunsWalk` | src/executable_trust/lifecycle/state_machine.py:63-135 | Over any interleaving of accepted and refused requests, every decision's history is a walk of the declared graph that starts at the initial state, leaves no terminal state and carries the required attribution and successors. |
| `LifecycleRuns.RecordedAsAsked` | src/executable_trust/lifecycle/state_machine.py:120-133 | A recorded transition says what was asked, by whom, from which state, at which position and under which contract. |
| `LifecycleAnswers.AttemptRecordsIff` | src/executable_trust/lifecycle/state_machine.py:81-135 | A request is recorded as a transition if and only if that transition carries what was asked, as the next of its decision under the next identifier, and is a legal step from the current state. |
| `LifecycleAnswers.RefusedExactlyFor` | src/executable_trust/lifecycle/state_machine.py:84-133 | Each refusal is given exactly for the defect it stands for, in the order of the checks; the record's own validators come last, and the history is never a reason. |
| `LifecycleAnswers.AttemptNumbers` | src/executable_trust/lifecycle/state_machine.py:120-121 | A request uses up one transition identifier exactly when it gets as far as being built. |
| `LifecycleAnswers.EveryWalkIsRecorded` | src/executable_trust/lifecycle/state_machine.py:63-135 | Every walk of the declared graph is recorded, identifiers aside, by asking for its transitions in turn. |
| `LifecycleRuns.HistoryGrows` | src/executable_trust/lifecycle/history.py:78-107 | Any run only extends a history at its end. |
| `LifecycleRuns.TransitionIdsDistinct` | src/executable_trust/lifecycle/state_machine.py:121-121 | No run logs two transitions under one identifier. |
| `LifecycleRuns.StateAtIsReplay` | src/executable_trust/lifecycle/history.py:95-107 | The state as of any position is what replaying the history up to it yields, and the replay never sticks. |
| `LifecycleRuns.PastNeverRewritten` | src/executable_trust/lifecycle/history.py:95-107 | After any further run, the state as of a recorded position is what the current-state query returned then. |
| `LifecycleRuns.WalkBounded` | src/executable_trust/lifecycle/state_machine.py:84-99 | Under a rank that every declared edge lowers, position plus remaining rank never exceeds the initial rank. |
| `LifecycleRuns.LifecycleTerminates` | src/executable_trust/lifecycle/state_machine.py:84-99 | Under such a contract no run records more transitions for a decision than the initial rank. |
| `LifecycleMachine.LifecycleStateMachine.Transition` | src/executable_trust/lifecycle/state_machine.py:63-135 | The object's result, log and identifier counters are those of the specified attempt. |
| `LifecycleMachine.LifecycleStateMachine.Accept` | src/executable_trust/lifecycle/state_machine.py:139-149 | Acceptance is the attempt to reach ACCEPTED with its review code and no successor. |
| `LifecycleMachine.LifecycleStateMachine.Reject` | src/executable_trust/lifecycle/state_machine.py:151-165 | Rejection is the attempt to reach REJECTED with its review code and no successor. |
| `LifecycleMachine.LifecycleStateMachine.Supersede` | src/executable_trust/lifecycle/state_machine.py:167-183 | Supersession is the attempt to reach SUPERSEDED naming the successor. |
| `Lifecycle.FirstDeclaredGoverns` | src/executable_trust/contracts/models.py:243-250 | The first declared transition that joins the two states is the one returned; when none does, none is. |
| `LifecycleCoherence.ValidationReport.Record` | src/executable_trust/contracts/validation.py:35-38 | A report shows the checks made so far: their number, and the findings of those that failed, in order. |
| `LifecycleCoherence.ValidationReport.Merge` | src/executable_trust/contracts/validation.py:40-42 | A merged report shows both reports' checks, and is right even when a report is merged into itself. |
| `LifecycleCoherence.ValidateLifecycleCoherence` | src/executable_trust/contracts/validation.py:115-157 | The nested loops make exactly the specified checks in order; the report is clear if and only if every lifecycle is coherent. |
| `LifecycleCoherence.ReportClearIffCoherent` | src/executable_trust/contracts/validation.py:31-33 | No finding remains exactly when terminal states have no outbound edge, every declared state is initial or a target, and supersession and review edges require what they must. |
| `LifecycleCoherence.FindingsMean` | src/executable_trust/contracts/validation.py:129-156 | The report contains a finding if and only if the lifecycle has the defect it reports. |
| `LifecycleReachability.TerminalEndsTrails` | src/executable_trust/contracts/validation.py:129-135 | In a coherent lifecycle no trail goes on from a terminal state. |
| `LifecycleReachability.CoherentAcyclicReachable` | src/executable_trust/contracts/validation.py:137-142 | With no cycle and only declared sources, passing the validator implies a path from the initial state to every declared state. |
| `LifecycleReachability.CyclesPassTheValidator` | src/executable_trust/contracts/validation.py:118-121 | A contract with a cycle passes the validator with a declared state that cannot be reached. |
| `LifecycleReachability.UndeclaredSourcesPassTheValidator` | src/executable_trust/contracts/validation.py:118-121 | An acyclic contract with an edge from an undeclared state passes with a declared state that cannot be reached. |
| `LifecycleReachability.AllReachableIffUnsealed` | src/executable_trust/contracts/validation.py:118-121 | All declared states are reachable if and only if none lies in a region that avoids the initial state and that no edge enters from outside. |
| `LifecycleReachability.RankedHasNoCycle` | src/executable_trust/contracts/validation.py:115-157 | A rank that every declared edge lowers excludes cycles. |
| `LifecycleReachability.CoherentRecordsAreValid` | src/executable_trust/lifecycle/models.py:44-76 | Under a coherent contract, a request that passes the machine's checks fails the record's validators exactly when it lacks identity or names a successor it may not name. |
| `LifecycleReachability.V1Coherent` | contracts/executable-trust-v1.0.yaml:344-384 | The v1.0 lifecycle passes the validator, is acyclic and reaches every state it declares. |
| `LifecycleReachability.V1Histories` | contracts/executable-trust-v1.0.yaml:344-392 | Every v1.0 run gives each decision one of four histories of at most two steps, and it is SUPERSEDED exactly when accepted and then superseded. |
| `LifecycleAnswers.V1HistoriesReached` | contracts/executable-trust-v1.0.yaml:344-384 | Each of the four v1.0 histories is recorded by some run, for any decision and accountable reviewer. |
| `LifecycleReachability.LogAcceptsUndeclared` | contracts/executable-trust-v1.0.yaml:394-398 | The log takes a valid transition that v1.0 does not declare, from a state the decision is not in. |
| `Domain.CountsAddUp` | src/executable_trust/domain/models.py:87-95 | Supported, unsupported and contradicted claims add up to the total. |
| `Claims.ClaimDefects` | src/executable_trust/verification/models.py:177-215 | Which defect of a raw claim each code stands for, in both directions. |
| `Claims.ParsedAsWritten` | src/executable_trust/verification/models.py:190-210 | A raw claim parses into a claim if and only if the claim repeats its verdict, text, reference and scope, has text, and cites only when SUPPORTED. |
| `Claims.ParseMeaning` | src/executable_trust/verification/models.py:158-217 | Parsing is all or nothing: every claim parses, in order, or the code is that of the claim of least index that does not. |
| `Claims.ParseUnique` | src/executable_trust/verification/models.py:158-217 | At most one result fits that description. |
| `Claims.ParseClaims` | src/executable_trust/verification/models.py:174-217 | The loop with its early exit returns that result. |
| `Claims.ParseConcat` | src/executable_trust/verification/models.py:158-217 | Parsing distributes over concatenation of well-formed claims. |
| `DecisionFunction.Decide` | src/executable_trust/verification/models.py:81-101 | Every decision has a strategy exactly when grounded and a reason code exactly when refused, under the responding mechanism's name and latency. |
| `DecisionFunction.GroundedIffWarranted` | src/executable_trust/verification/decision_function.py:57-171 | A decision is grounded if and only if the response is whole, well formed, not empty, all SUPPORTED and relevant; it is then BOUNDED if and only if some claim states a limitation. |
| `DecisionFunction.CountedIffWellFormed` | src/executable_trust/verification/decision_function.py:57-76 | Claims are counted exactly when the response is whole and well formed, and then all of them are. |
| `DecisionAnswers.DecisionExplained` | src/executable_trust/verification/decision_function.py:57-171 | Each reason code is given exactly for the defect of the response it stands for, and none for a response without one. |
| `DecisionAnswers.DecisionCarriesClaims` | src/executable_trust/verification/decision_function.py:76-171 | The decision carries the response's claims entry by entry and counts how many have each verdict; a truncated or malformed response leaves both unmeasured. |
| `DecisionAnswers.DecideDecides` | src/executable_trust/verification/decision_function.py:30-171 | For every response the decision says all of this, and is BOUNDED exactly when some raw claim states a limitation. |
| `DecisionAnswers.DecisionUnique` | src/executable_trust/verification/decision_function.py:30-171 | Only one decision does: nothing about it is left open. |
| `DecisionFunction.RuledByCounts` | src/executable_trust/verification/decision_function.py:78-171 | On well-formed claims the outcome, code and strategy follow from the number of claims of each sort and the relevance flag alone. |
| `DecisionFunction.OrderIrrelevant` | src/executable_trust/verification/decision_function.py:30-171 | Reordering claims never changes the outcome or strategy, and on well-formed claims changes neither code nor counts. |
| `DecisionFunction.GroundedByParts` | src/executable_trust/verification/decision_function.py:30-182 | A response in two non-empty parts is grounded exactly when both parts are, and then BOUNDED exactly when either is. |
| `DecisionFunction.RulingsCombine` | src/executable_trust/verification/decision_function.py:83-161 | How the codes and counts of two well-formed parts combine into those of the whole. |
| `DecisionFunction.FirstDefectDecides` | src/executable_trust/verification/decision_function.py:65-74 | A malformed response is refused with the code of its first defective claim, and nothing is counted. |
| `Evidence.WindowIsTheTop` | src/executable_trust/evidence/models.py:48-56 | Window and remainder make up the whole set, the window is ranked, and nothing left out ranks above anything kept. |
| `Evidence.WindowPrefersLesserId` | src/executable_trust/evidence/models.py:49-55 | What a window leaves out scores less than all it keeps, or as much with an identifier later in code-point order. |
| `Evidence.WindowsCompose` | src/executable_trust/evidence/models.py:48-56 | Narrowing twice is narrowing once to the smaller bound. |
| `Evidence.WindowIgnoresRetrievalOrder` | src/executable_trust/evidence/models.py:49-55 | When score and identifier tell items apart, the window does not depend on retrieval order. |
| `Evidence.WindowKeepsTies` | src/executable_trust/evidence/models.py:49-56 | Items that tie on score and identifier keep their retrieval order, and a window keeps the earliest of them. |
| `Evidence.WindowKeepsTopScore` | src/executable_trust/evidence/models.py:43-46 | The best score of the window is the best score of the whole set. |
| `Evidence.GateMeaning` | src/executable_trust/evidence/gate.py:45-108 | The gate is sufficient if and only if enough items survive the window and the best item of the whole set clears the bar; EMPTY means exactly that nothing was retrieved. |
| `Evidence.ProvenanceMeaning` | src/executable_trust/evidence/gate.py:30-42 | The check passes if and only if every item has a permitted source, when one is required; a failure names an offending item. |
| `Evidence.WindowPermitted` | src/executable_trust/evidence/gate.py:30-42 | A window over permitted evidence is permitted, and holds only supplied items. |
| `KeywordText.ShippedLexiconHasNoBlankSentences` | src/executable_trust/verification/deterministic.py:144-144 | The shipped sentence splitting yields no blank sentence, for any case folding. |
| `TextLaws.SplitRejoins` | src/executable_trust/verification/deterministic.py:144-144 | The pieces of a split hold no separator, and laid back between separators give the text again. |
| `TextLaws.SplitUnique` | src/executable_trust/verification/deterministic.py:144-144 | No other pieces do. |
| `TextLaws.PieceIff` | src/executable_trust/verification/deterministic.py:195-195 | The pieces are exactly the separator-free stretches that reach to a separator or an end on either side. |
| `TextLaws.StripIsCore` | src/executable_trust/verification/deterministic.py:192-197 | Stripping removes only leading and trailing characters of its kind, and all of them. |
| `TextLaws.CoreIsStrip` | src/executable_trust/verification/deterministic.py:192-197 | A text has only one such core. |
| `TextLaws.ContainsIff` | src/executable_trust/verification/deterministic.py:184-184 | A text contains a part exactly when it is something, the part, and something. |
| `ShippedKeywords.StopWordsListed` | src/executable_trust/verification/deterministic.py:91-129 | The stop words are the listed articles, forms of be, prepositions, conjunctions, pronouns and auxiliaries. |
| `ShippedKeywords.SignificantIff` | src/executable_trust/verification/deterministic.py:192-197 | The significant words of a text are what its words longer than two characters are, stripped of punctuation and lowered, unless stop words; and no others. |
| `ShippedKeywords.SentencesIff` | src/executable_trust/verification/deterministic.py:144-144 | The sentences of an answer are its non-blank stretches between full stops, in order, without the blanks around them; it reads in no other way. |
| `KeywordVerifier.EntailingEvidence` | src/executable_trust/verification/deterministic.py:171-186 | The search cites the first item holding every significant word, and nothing when there is none or no significant word. |
| `KeywordVerifier.Verify` | src/executable_trust/verification/deterministic.py:143-169 | The loop builds exactly the specified response, one claim for each sentence. |
| `KeywordVerifier.KeywordOutputParses` | src/executable_trust/verification/deterministic.py:147-158 | Parsing never fails on this output; each claim is SUPPORTED exactly when an item entails its sentence, and cites a supplied item that does. |
| `KeywordVerifier.RelevanceMeaning` | src/executable_trust/verification/deterministic.py:160-162 | The answer is relevant exactly when some entailed sentence shares a significant word with the question. |
| `KeywordVerifier.KeywordSoundAndComplete` | src/executable_trust/verification/deterministic.py:143-190 | Deciding on this output grounds an answer if and only if it has a sentence, each sentence is entailed by a single item, and some sentence overlaps the question; the strategy depends on the sentences alone. |
| `KeywordVerifier.MoreEvidenceNeverRefuses` | src/executable_trust/verification/deterministic.py:171-186 | Adding evidence never turns a grounded answer into a refusal, nor changes its strategy. |
| `KeywordVerifier.KeywordRefusals` | src/executable_trust/verification/deterministic.py:143-169 | The reason code of a keyword-verified answer names the first thing it lacks: sentences, any entailed one, all entailed, one that overlaps the question. |
| `ShippedKeywords.ShippedKeywordExactly` | src/executable_trust/verification/deterministic.py:90-197 | As shipped, an answer is grounded if and only if it reads as some sentences, a single item contains every significant word of each, and one shares a significant word with the question; it is BOUNDED if and only if one contains a limiting phrase. |
| `Identifiers.PaddedReadsBack` | src/executable_trust/domain/identifiers.py:93-93 | Zero-padded decimals read back as the number written, past four digits too. |
| `Identifiers.IdentifierReads` | src/executable_trust/domain/identifiers.py:93-93 | An identifier is its prefix, seed and number between hyphens; the number has at least four digits, and more only if it needs them. |
| `Identifiers.IdentifiersDistinct` | src/executable_trust/domain/identifiers.py:77-93 | Identifiers of one prefix and seed are equal exactly when their counts are. |
| `Identifiers.SequentialIdFactory.NewId` | src/executable_trust/domain/identifiers.py:90-93 | A new identifier carries the next count of its prefix, and no other prefix's counter moves. |
| `Identifiers.SequentialIdFactory.Reset` | src/executable_trust/domain/identifiers.py:95-97 | A reset clears every counter. |
| `Identifiers.FixedClock.Tick` | src/executable_trust/domain/identifiers.py:63-66 | The clock advances by one step and returns the new time. |
| `DecisionRecords.InMemoryDecisionStore.Append` | src/executable_trust/decisions/store.py:49-56 | A record is stored exactly when its identifier is new; otherwise nothing changes. |
| `DecisionRecords.InMemoryDecisionStore.All` | src/executable_trust/decisions/store.py:61-62 | Every record is returned, in insertion order. |
| `DecisionRecords.AddKeeps` | src/executable_trust/decisions/store.py:46-56 | Adding a new record keeps keys, order and identifiers in agreement. |
| `DecisionRecords.VersionTextIff` | src/executable_trust/decisions/records.py:47-47 | A version is some digits, a full stop, and some digits. |
| `Telemetry.TelemetryRecorder.Record` | src/executable_trust/telemetry/recorder.py:63-103 | An identifier is always consumed; an invalid event or a failed write is counted and goes no further. |
| `Telemetry.TelemetryStore.Append` | src/executable_trust/telemetry/store.py:27-78 | A write fails exactly when the outage says so, and then stores nothing. |
| `TrustServices.TrustService.HandleRequest` | src/executable_trust/decisions/service.py:82-187 | The object's result, state and effects are those of the specified path, over its store, clock and factory and a recorder that shares them or has its own. |
| `TrustServices.TrustService.JudgeRequest` | src/executable_trust/decisions/service.py:85-176 | The early exits decide what the specified judgement decides, and call the authorizer, generator and verifier exactly as it does. |
| `TrustServices.TrustService.Record` | src/executable_trust/decisions/service.py:220-272 | The record is stored before capture, with the specified identifiers and state. |
| `ServiceRuns.GenerationExactlyWhenPermitted` | src/executable_trust/decisions/service.py:82-187 | The generator runs if and only if the contract is registered and ratified, the actor authorized, provenance acceptable and evidence sufficient; then once, on the window that is also verified. Otherwise nothing runs and the refusal names the first failed check. |
| `ServiceRuns.GroundedExactly` | src/executable_trust/decisions/service.py:160-187 | An answer is grounded if and only if the request was permitted and the verifier's response on the gate's window warrants it. |
| `ServiceAnswers.AnsweredExactly` | src/executable_trust/decisions/service.py:82-187 | Every request is answered for what happened to it: a permitted one with all that its response decides, or its verifier's controlled code, or VERIFIER_ERROR for an uncontrolled one; any other with the code and the gate that turned it away. |
| `ServiceAnswers.AnswerUnique` | src/executable_trust/decisions/service.py:164-176 | A verification has one answer. |
| `ServiceAnswers.JudgedOnce` | src/executable_trust/decisions/service.py:102-176 | The verifier's state moves by its one verification, and the authorization reported is the one given, or a denial where no contract governs. |
| `ServiceAnswers.HandedOver` | src/executable_trust/decisions/service.py:239-272 | The caller is handed the decision and authorization of the request, and the record states them under the service's own environment and population. |
| `ServiceAnswers.HandleFailsIff` | src/executable_trust/decisions/service.py:239-261 | When a request fails and why: a blank identity or an identifier already stored. It then leaves no record and no telemetry, and has used up one decision number. |
| `ServiceRuns.RecordsAreValid` | src/executable_trust/decisions/records.py:75-119 | On every exit the record satisfies its validators, and it is DENIED exactly when no contract governed or authorization was denied. |
| `ServiceRuns.RecordTracesRequest` | src/executable_trust/decisions/service.py:239-260 | On every exit the record names the requested contract, version, subject, resource and correlation, and counts exactly the evidence read. |
| `ServiceRuns.ResultReportsWhatHappened` | src/executable_trust/decisions/service.py:265-272 | The stored record states the returned decision; generation is reported exactly when the request was permitted; the evidence quality is present exactly when the sufficiency gate was reached, and SUFFICIENT exactly when generation followed. |
| `ServiceRuns.HandleFailsOnlyOnReuse` | src/executable_trust/decisions/store.py:50-55 | With valid inputs, a request fails exactly when its next identifier is already stored. |
| `ServiceRuns.FreshStateAccounted` | src/executable_trust/domain/identifiers.py:86-88 | A new service, with nothing stored and nothing numbered, meets the invariant the run results start from. |
| `ServiceRuns.HandleRecordsOnce` | src/executable_trust/decisions/service.py:239-263 | A request adds one record under the next identifier and touches no other. |
| `ServiceRuns.OneRecordPerRequest` | src/executable_trust/decisions/store.py:43-62 | A run of m requests succeeds m times and leaves m new records in order, one for each result; nothing stored changes. |
| `ServiceRuns.ResetFactoryIsRefused` | src/executable_trust/domain/identifiers.py:95-97 | After the factory is reset under a store in use, the next request is refused by the store. |
| `TelemetryRuns.TelemetryCannotInfluence` | src/executable_trust/decisions/service.py:233-263 | Over every run, services that differ only in telemetry (store, recorder history, its clock and factory, shared or not) give the same decisions, records, identifiers and timestamps, and end with the same store. |
| `TelemetryRuns.EveryRequestObserved` | src/executable_trust/telemetry/recorder.py:75-103 | Captured events and counted failures together grow by one for each request, and which it is follows the store's failures write by write. |
| `TelemetryRuns.NewServiceAccounts` | src/executable_trust/decisions/service.py:239-272 | A new service handling m requests leaves exactly m records, the i-th result's in the i-th place, and m observations, captured or failed. |
| `TelemetryRuns.CapturedMeaning` | src/executable_trust/telemetry/recorder.py:94-103 | Read by position: the i-th result of a run is captured exactly when the store takes that write. |
| `TelemetryRuns.CapturedEventsRelated` | src/executable_trust/telemetry/events.py:64-82 | Every event a run captures has the full outcome relation, also where the event's own validator leaves it open. |
| `TelemetryRuns.EventsDescribeStoredRecords` | src/executable_trust/telemetry/recorder.py:76-94 | Over any run, whatever fails, every captured event joins to a stored record by its decision identifier and agrees with it. |
| `TelemetryStory.RunTellsItsStory` | src/executable_trust/telemetry/recorder.py:75-103 | The events a run captures are exactly those that tell of its captured results, in order, with the recorder's labels, clock and next identifiers; the failures counted are the results not captured. |
| `TelemetryRuns.RunMetricsExplainRefusals` | src/executable_trust/telemetry/metrics.py:137-141 | Metrics over what any run captured explain each refusal with one code, and count no fault that is not a refusal. |
| `ResilientService.RequestIsBreakerStep` | src/executable_trust/decisions/service.py:164-176 | A request is one breaker call when permitted, and leaves the breaker alone otherwise. |
| `ResilientService.CallAnswersRequest` | src/executable_trust/decisions/service.py:164-176 | A permitted request is answered for what its breaker call came to, and a fault with the code raised by the one mechanism invoked. |
| `ResilientService.ServiceRunIsBreakerRun` | src/executable_trust/decisions/service.py:164-176 | A run of requests is a run of the breaker, so every result about the breaker's runs applies to it. |
| `ResilientService.GroundedHadAServer` | src/executable_trust/verification/resilience.py:144-172 | A grounded answer rests on the response of one untripped, healthy mechanism invoked for that request. |
| `ResilientService.PersistentFaultsRefuseRequests` | src/executable_trust/decisions/service.py:164-174 | Once every verification goes wrong for twice the exposure limit of permitted requests, later ones are refused with the unavailable code. |
| `ResilientService.PrimaryOutageMovesVerification` | src/executable_trust/decisions/service.py:164-176 | After an exposure limit of permitted requests whose primary goes wrong, every grounded answer rests on a warranting response of the conservative mechanism. |
| `ResilientService.ResilientWiringRunsThroughBreaker` | src/executable_trust/verification/resilience.py:84-96 | A service composed with the breaker as its verifier is one the breaker's results apply to. |
| `KeywordService.KeywordAnswersExactly` | src/executable_trust/decisions/service.py:82-187 | With the keyword verifier, a request is answered if and only if it is permitted and the generated answer is entailed and relevant on the gate's window, whose items all have permitted provenance. |
| `KeywordService.KeywordAnswers` | src/executable_trust/decisions/service.py:164-176 | A permitted request is answered with the strategy its sentences give, or the code of the first thing its answer lacks. |
| `Rounding.RoundsToWhole` | src/executable_trust/evaluation/runner.py:248-248 | A rate rounded to four decimals is one when fewer than one part in 20000 is missing, and below one when more is. |
| `EvaluationGate.Summarize` | src/executable_trust/evaluation/runner.py:243-267 | Totals are right, each category's bucket counts its own results, the buckets sum to the totals, and an empty suite fails. |
| `EvaluationGate.BucketsMean` | src/executable_trust/evaluation/runner.py:250-254 | A category has a bucket exactly when some result is of it, and the bucket counts those results and how many of them passed. |
| `EvaluationGate.GateAtOne` | contracts/executable-trust-v1.0.yaml:416-424 | With a minimum of one, a suite passes exactly when fewer than one case in 20000 fails, or exactly one does and that tie is rounded up; these are the only ties. |
| `EvaluationGate.PerfectionDemandedIff` | contracts/executable-trust-v1.0.yaml:416-424 | The gate demands a perfect pass rate, however ties are rounded, if and only if the suite has fewer than 20000 cases. |
| `EvaluationGate.LargeSuitesForgiveOne` | src/executable_trust/evaluation/runner.py:248-266 | In every suite of more than 20000 cases, one failure still passes. |
| `EvaluationGate.PassingIsNearMinimum` | src/executable_trust/evaluation/runner.py:248-266 | For any minimum, a passing suite's true pass rate is at least the minimum less 1/20000. |
| `EvaluationGate.AboveMinimumPasses` | src/executable_trust/evaluation/runner.py:248-266 | For any minimum, a suite whose true pass rate is at least 1/20000 above it passes. |
| `Metrics.NothingWithheld` | src/executable_trust/telemetry/metrics.py:126-131 | Events of the window, synthetic ones and those of other environments add up to all events. |
| `Metrics.ReasonsMatchRefusals` | src/executable_trust/telemetry/metrics.py:137-141 | On events with the outcome relation, reason codes are as many as refusals and faults no more. |
| `MetricsMeaning.CountsMean` | src/executable_trust/telemetry/metrics.py:126-139 | The total is the number of events in the window, the grounded and refused are those of them with that outcome, and the sample is insufficient exactly below the minimum. |
| `MetricsMeaning.CodesMean` | src/executable_trust/telemetry/metrics.py:139-141 | The count under each reason code is the number of events in the window with it, and the faults are those with one of the five fault codes. |
| `MetricsMeaning.ExclusionsMean` | src/executable_trust/telemetry/metrics.py:128-131 | What observed metrics exclude is exactly the synthetic events and the observed ones of other environments. |
| `Metrics.RatesHonest` | src/executable_trust/telemetry/metrics.py:171-175 | Rates appear exactly when the sample suffices and are roundings of their counts; grounded and refused rates add up to one within a unit of rounding. |
| `Metrics.PercentilesOrdered` | src/executable_trust/telemetry/metrics.py:143-183 | Both percentiles exist exactly on a non-empty window, are read at a rank within a half of the exact share, and are ordered. |
| `Metrics.NearestRankIff` | src/executable_trust/telemetry/metrics.py:178-183 | For both fractions, the rank read is the nearest rank exactly when the exact share is whole or past halfway, or a tie rounded up; it is otherwise one below. |
| `Metrics.NearestRankMissed` | src/executable_trust/telemetry/metrics.py:179-182 | With twelve latencies the 95th percentile is read at rank 11, where the nearest rank is 12. |
| `Metrics.MedianNearestIff` | src/executable_trust/telemetry/metrics.py:182-182 | With ties to even, the median is at the nearest rank exactly on even samples, samples one short of a multiple of four, and single latencies. |
| `Metrics.NinetyFifthNearestIff` | src/executable_trust/telemetry/metrics.py:182-182 | With ties to even, the 95th percentile is at the nearest rank exactly when its exact share is whole or past halfway, or halfway on a sample ten past a multiple of forty. |
| `Metrics.PercentilesNearest` | src/executable_trust/telemetry/metrics.py:143-158 | Each reported percentile is the latency at the nearest rank, or at the rank below where the exact share is less than halfway to it. |
| `MetricsMeaning.PercentilesMean` | src/executable_trust/telemetry/metrics.py:143-183 | Each reported percentile is the latency of an event in the window; at least as many events as its rank take no longer and fewer take less, for a rank within a half of the exact share that is the nearest rank or, short of halfway, one below. |

## Left out

- Contract, vocabulary and case files: reading YAML and JSON, schema checks, the command line, scripts and reports.
- Authorization rules: the authorizer is an arbitrary function from actor and resource to a decision.
- Contract registry and amendments: resolution is a map from identifier and version to a contract with a ratified flag; `minimum_sample`, the gate minimum and the breaker's thresholds are parameters rather than read out of a contract's rules.
- The other artifact validators: only the lifecycle coherence validator is modelled.
- Field formats: lengths and patterns are modelled where a record, transition or event could fail on them at run time; a contract's version is well formed because the contract model enforces it on loading, so a transition's check of it is omitted, and version digits are ASCII.
- Message and detail strings, logging, sorted presentation of categories and reason counts.
- The wall clock and random identifiers: time is an abstract value, and identifiers come from the sequential factory.
- Floating point: thresholds, rates and scores are exact, so the way binary division, comparison and ties round is not captured; results say what happens at a tie for either rounding.
- Exceptions other than `VerifierFailure` from a verifier, and any exception from a generator or authorizer.
- The scripted and fault-injecting verifiers: both are instances of the arbitrary verifier.
- Writes through a window handed out by the breaker, other than resets.
- `superseded_by`, `successors_of`, lookup of a record by its identifier, store filtering, environment classification, case loading and the evaluation loop itself.
- HealthWindows.HealthWindow.Record: the bounded deque is a sequence, so how a deque discards its oldest element in place is not captured.
