/** The whole story that telemetry tells of a run: which events it captured, in which order, and with which labels. */
module TelemetryStory {
  import opened Collections
  import opened Telemetry
  import opened Identifiers
  import opened ServiceModel
  import opened TelemetryRuns

  type Answer = Result<GovernedResult, HandleError>

  /** An event tells of a result: what its record says, how good the evidence was, when the recorder saw it, under the
      recorder's own labels and the next identifier of its factory. */
  predicate Tells(recorder: RecorderSettings, e: TelemetryEvent, result: GovernedResult, now: int, number: nat) {
    && Describes(e, result.record) && e.evidenceQuality == result.quality && e.capturedAt == now
    && e.environment == recorder.environment && e.population == recorder.population
    && e.eventId == Identifier(EVT, recorder.seed, number + 1)
  }

  /** How many events the recorder's factory has numbered. */
  function Numbered<S>(recorder: RecorderSettings, s: ServiceState<S>): nat {
    Issued(if recorder.sharesIds then s.counters else s.recorderCounters, EVT)
  }

  function Captured(result: Answer): bool { result.Success? && result.value.telemetryCaptured }

  function Missed(): Answer -> bool { (result: Answer) => result.Success? && !result.value.telemetryCaptured }

  /** Events tell of results in order: each captured result has one event, and no event is of anything else. */
  ghost predicate Story(
      recorder: RecorderSettings, events: seq<TelemetryEvent>, results: seq<Answer>, arrivals: seq<Arrival>,
        number: nat)
    requires |results| == |arrivals|
    decreases |results|
  {
    if results == [] then events == []
    else if Captured(results[0]) then
      && events != [] && Tells(recorder, events[0], results[0].value, arrivals[0].now.recorder, number)
      && Story(recorder, events[1..], results[1..], arrivals[1..], number + 1)
    else
      Story(recorder, events, results[1..], arrivals[1..], if results[0].Success? then number + 1 else number)
  }

  lemma {:induction false} IssuedApart(counters: Counters)
    ensures Issued(Issue(counters, DEC), EVT) == Issued(counters, EVT)
    ensures Issued(Issue(counters, EVT), EVT) == Issued(counters, EVT) + 1
  {
    assert DEC[0] != EVT[0];
  }

  /** What finalizing one request adds to telemetry. */
  ghost predicate Adds<S>(recorder: RecorderSettings, s: ServiceState<S>, h: Handled<S>, now: int) {
    var before, after := s.capture, h.after.capture;
    if h.result.Failure? then after == before && Numbered(recorder, h.after) == Numbered(recorder, s)
    else
      && Numbered(recorder, h.after) == Numbered(recorder, s) + 1
      && if h.result.value.telemetryCaptured then
           && |after.events| == |before.events| + 1 && after.events[..|before.events|] == before.events
           && Tells(recorder, after.events[|before.events|], h.result.value, now, Numbered(recorder, s))
           && after.failures == before.failures
         else after.events == before.events && after.failures == before.failures + 1
  }

  lemma {:induction false} FinalizeAdds<S>(
      w: Wiring<S>, recorder: RecorderSettings, seed: string, s: ServiceState<S>, req: TrustRequest, now: Clocks,
      j: Judged<S>)
    ensures Adds(recorder, s, Finalize(w, recorder, seed, s, req, now, j), now.recorder)
  {
    IssuedApart(s.counters);
    IssuedApart(Issue(s.counters, DEC));
    IssuedApart(s.recorderCounters);
  }

  lemma {:induction false} HandleAdds<S>(
      w: Wiring<S>, recorder: RecorderSettings, seed: string, s: ServiceState<S>, a: Arrival)
    ensures Adds(recorder, s, Handle(w, recorder, seed, s, a), a.now.recorder)
  {
    FinalizeAdds(w, recorder, seed, s, a.request, a.now, Judge(w, s.world, a.request, a.evidence));
  }

  lemma {:induction false} EveryArrivalAnswered<S>(
      w: Wiring<S>, recorder: RecorderSettings, seed: string, s: ServiceState<S>, arrivals: seq<Arrival>)
    ensures |Run(w, recorder, seed, s, arrivals).results| == |arrivals|
    decreases |arrivals|
  {
    if arrivals != [] {
      EveryArrivalAnswered(w, recorder, seed, Handle(w, recorder, seed, s, arrivals[0]).after, arrivals[1..]);
    }
  }

  lemma {:induction false} StoryGoesOn<S>(
      recorder: RecorderSettings, s: ServiceState<S>, h: Handled<S>, rest: ServiceRun<S>, told: seq<TelemetryEvent>,
      a: Arrival, arrivals: seq<Arrival>)
      returns (whole: seq<TelemetryEvent>)
    requires Adds(recorder, s, h, a.now.recorder) && |rest.results| == |arrivals|
    requires rest.after.capture.events == h.after.capture.events + told
    requires Story(recorder, told, rest.results, arrivals, Numbered(recorder, h.after))
    requires rest.after.capture.failures == h.after.capture.failures + Count(Missed(), rest.results)
    ensures rest.after.capture.events == s.capture.events + whole
    ensures Story(recorder, whole, [h.result] + rest.results, [a] + arrivals, Numbered(recorder, s))
    ensures rest.after.capture.failures == s.capture.failures + Count(Missed(), [h.result] + rest.results)
  {
    var results, all := [h.result] + rest.results, [a] + arrivals;
    assert results[1..] == rest.results && all[1..] == arrivals;
    if Captured(h.result) {
      var e := h.after.capture.events[|s.capture.events|];
      whole := [e] + told;
      assert h.after.capture.events == s.capture.events + [e];
      assert whole[1..] == told;
    } else {
      whole := told;
    }
  }

  /** Over any run, whatever fails: the events captured are exactly those that tell of the captured results, in order,
      and the failures counted are the results that were not captured. */
  lemma {:induction false} RunTellsItsStory<S>(
      w: Wiring<S>, recorder: RecorderSettings, seed: string, s: ServiceState<S>, arrivals: seq<Arrival>)
      returns (told: seq<TelemetryEvent>)
    ensures var run := Run(w, recorder, seed, s, arrivals);
            && |run.results| == |arrivals|
            && run.after.capture.events == s.capture.events + told
            && Story(recorder, told, run.results, arrivals, Numbered(recorder, s))
            && run.after.capture.failures == s.capture.failures + Count(Missed(), run.results)
    decreases |arrivals|
  {
    if arrivals == [] {
      told := [];
    } else {
      var h := Handle(w, recorder, seed, s, arrivals[0]);
      HandleAdds(w, recorder, seed, s, arrivals[0]);
      EveryArrivalAnswered(w, recorder, seed, h.after, arrivals[1..]);
      var later := RunTellsItsStory(w, recorder, seed, h.after, arrivals[1..]);
      told := StoryGoesOn(recorder, s, h, Run(w, recorder, seed, h.after, arrivals[1..]), later, arrivals[0],
                          arrivals[1..]);
      assert arrivals == [arrivals[0]] + arrivals[1..];
    }
  }
}
