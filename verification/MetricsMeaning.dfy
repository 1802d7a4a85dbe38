/** What each number of the behaviour metrics counts or reads, stated over the events themselves. */
module MetricsMeaning {
  import opened Collections
  import opened Sorting
  import opened Domain
  import opened Telemetry
  import opened Rounding
  import opened Metrics

  /** An event the metrics are about: any event, or an observed one in a permitted environment. */
  predicate InWindow(e: TelemetryEvent, permitted: set<Environment>, observedOnly: bool) {
    observedOnly ==> e.population == OBSERVED && e.environment in permitted
  }

  /** How many of the events have a property. */
  function HowMany(events: seq<TelemetryEvent>, p: TelemetryEvent -> bool): nat {
    |set i: nat | i < |events| && p(events[i])|
  }

  function Window(events: seq<TelemetryEvent>, permitted: set<Environment>, observedOnly: bool): seq<TelemetryEvent> {
    if observedOnly then Filter(IsObserved(permitted), events) else events
  }

  lemma {:induction false} CountHowMany(events: seq<TelemetryEvent>, p: TelemetryEvent -> bool)
    ensures Count(p, events) == HowMany(events, p)
  {
    CountPositions(p, events);
    assert Positions(p, events) == set i: nat | i < |events| && p(events[i]);
  }

  lemma {:induction false} CountSame<T>(p: T -> bool, q: T -> bool, xs: seq<T>)
    requires forall x <- xs :: p(x) == q(x)
    ensures Count(p, xs) == Count(q, xs)
  {
    if xs != [] {
      assert xs[0] in xs;
      CountSame(p, q, xs[1..]);
    }
  }

  lemma {:induction false} CountFiltered(
      p: TelemetryEvent -> bool, q: TelemetryEvent -> bool, both: TelemetryEvent -> bool, events: seq<TelemetryEvent>)
    requires forall e <- events :: both(e) == (q(e) && p(e))
    ensures Count(p, Filter(q, events)) == Count(both, events)
  {
    if events != [] {
      assert events[0] in events;
      CountFiltered(p, q, both, events[1..]);
      var kept := Filter(q, events[1..]);
      assert q(events[0]) ==> ([events[0]] + kept)[1..] == kept;
    }
  }

  /** Counting in the window is counting the events that are in it. */
  lemma {:induction false} CountInWindow(
      events: seq<TelemetryEvent>, permitted: set<Environment>, observedOnly: bool,
      p: TelemetryEvent -> bool, inside: TelemetryEvent -> bool)
    requires forall e <- events :: inside(e) == (InWindow(e, permitted, observedOnly) && p(e))
    ensures Count(p, Window(events, permitted, observedOnly)) == HowMany(events, inside)
  {
    CountHowMany(events, inside);
    if observedOnly {
      CountFiltered(p, IsObserved(permitted), inside, events);
    } else {
      CountSame(p, inside, events);
    }
  }

  // ---- Counts ----------------------------------------------------------------------------

  function Inside(permitted: set<Environment>, observedOnly: bool): TelemetryEvent -> bool {
    (e: TelemetryEvent) => InWindow(e, permitted, observedOnly)
  }

  function InsideGrounded(permitted: set<Environment>, observedOnly: bool): TelemetryEvent -> bool {
    (e: TelemetryEvent) => InWindow(e, permitted, observedOnly) && e.outcome == GROUNDED
  }

  function InsideWithCode(permitted: set<Environment>, observedOnly: bool, code: ReasonCode): TelemetryEvent -> bool {
    (e: TelemetryEvent) => InWindow(e, permitted, observedOnly) && e.reasonCode == Some(code)
  }

  function WithCode(code: ReasonCode): TelemetryEvent -> bool { (e: TelemetryEvent) => e.reasonCode == Some(code) }

  lemma {:induction false} CodesCounted(window: seq<TelemetryEvent>, code: ReasonCode)
    ensures multiset(ReasonCodes(window))[code] == Count(WithCode(code), window)
  {
    if window != [] {
      var first, rest := window[0].reasonCode, ReasonCodes(window[1..]);
      CodesCounted(window[1..], code);
      assert multiset(ReasonCodes(window))
        == (if first.Some? then multiset{first.value} else multiset{}) + multiset(rest);
    }
  }

  lemma {:induction false} FaultsCounted(window: seq<TelemetryEvent>)
    ensures Count(FaultEvent(), window)
         == Count(WithCode(VERIFIER_ERROR), window) + Count(WithCode(VERIFIER_TIMEOUT), window)
          + Count(WithCode(VERIFIER_OUTPUT_TRUNCATED), window) + Count(WithCode(MALFORMED_VERIFIER_OUTPUT), window)
          + Count(WithCode(NO_VERIFIER_AVAILABLE), window)
  {
    if window != [] { FaultsCounted(window[1..]); }
  }

  lemma {:induction false} WindowSize(events: seq<TelemetryEvent>, permitted: set<Environment>, observedOnly: bool)
    ensures |Window(events, permitted, observedOnly)| == HowMany(events, Inside(permitted, observedOnly))
  {
    var all: TelemetryEvent -> bool := e => true;
    CountExtremes(all, Window(events, permitted, observedOnly));
    CountInWindow(events, permitted, observedOnly, all, Inside(permitted, observedOnly));
  }

  /** The total is the number of events in the window, the grounded those of them that are grounded, and the rest are
      refused; the sample is insufficient exactly below the minimum. */
  lemma {:induction false} CountsMean(
      events: seq<TelemetryEvent>, permitted: set<Environment>, minimum: nat, observedOnly: bool,
      round: (nat, nat) -> int, roundShare: (nat, nat) -> int)
    ensures var m := Compute(events, permitted, minimum, observedOnly, round, roundShare);
            && m.total == HowMany(events, Inside(permitted, observedOnly))
            && m.grounded == HowMany(events, InsideGrounded(permitted, observedOnly))
            && m.refused == m.total - m.grounded
            && (m.insufficientSample <==> m.total < minimum)
  {
    WindowSize(events, permitted, observedOnly);
    CountInWindow(events, permitted, observedOnly, IsGrounded(), InsideGrounded(permitted, observedOnly));
  }

  /** The count under each reason code is the number of events in the window with that code, and the faults are those
      with one of the five codes of an unwell verifier. */
  lemma {:induction false} CodesMean(
      events: seq<TelemetryEvent>, permitted: set<Environment>, minimum: nat, observedOnly: bool,
      round: (nat, nat) -> int, roundShare: (nat, nat) -> int)
    ensures var m := Compute(events, permitted, minimum, observedOnly, round, roundShare);
            && (forall code: ReasonCode ::
                  m.reasonCodeCounts[code] == HowMany(events, InsideWithCode(permitted, observedOnly, code)))
            && m.faults == m.reasonCodeCounts[VERIFIER_ERROR] + m.reasonCodeCounts[VERIFIER_TIMEOUT]
                         + m.reasonCodeCounts[VERIFIER_OUTPUT_TRUNCATED] + m.reasonCodeCounts[MALFORMED_VERIFIER_OUTPUT]
                         + m.reasonCodeCounts[NO_VERIFIER_AVAILABLE]
  {
    var window := Window(events, permitted, observedOnly);
    FaultsCounted(window);
    forall code: ReasonCode
      ensures multiset(ReasonCodes(window))[code] == Count(WithCode(code), window)
      ensures Count(WithCode(code), window) == HowMany(events, InsideWithCode(permitted, observedOnly, code))
    {
      CodesCounted(window, code);
      CountInWindow(events, permitted, observedOnly, WithCode(code), InsideWithCode(permitted, observedOnly, code));
    }
  }

  function SyntheticEvent(): TelemetryEvent -> bool { (e: TelemetryEvent) => e.population != OBSERVED }

  function ElsewhereEvent(permitted: set<Environment>): TelemetryEvent -> bool {
    (e: TelemetryEvent) => e.population == OBSERVED && e.environment !in permitted
  }

  /** What observed metrics leave out: synthetic events, and observed ones of other environments. */
  lemma {:induction false} ExclusionsMean(
      events: seq<TelemetryEvent>, permitted: set<Environment>, minimum: nat, observedOnly: bool,
      round: (nat, nat) -> int, roundShare: (nat, nat) -> int)
    ensures var m := Compute(events, permitted, minimum, observedOnly, round, roundShare);
            && m.syntheticExcluded == (if observedOnly then HowMany(events, SyntheticEvent()) else 0)
            && m.otherEnvironmentExcluded == (if observedOnly then HowMany(events, ElsewhereEvent(permitted)) else 0)
  {
    CountSame(IsSynthetic(), SyntheticEvent(), events);
    CountSame(IsElsewhere(permitted), ElsewhereEvent(permitted), events);
    CountHowMany(events, SyntheticEvent());
    CountHowMany(events, ElsewhereEvent(permitted));
  }

  // ---- Latencies -------------------------------------------------------------------------

  function InsideWithin(permitted: set<Environment>, observedOnly: bool, latency: int): TelemetryEvent -> bool {
    (e: TelemetryEvent) => InWindow(e, permitted, observedOnly) && e.latencyMs <= latency
  }

  function InsideBelow(permitted: set<Environment>, observedOnly: bool, latency: int): TelemetryEvent -> bool {
    (e: TelemetryEvent) => InWindow(e, permitted, observedOnly) && e.latencyMs < latency
  }

  /** A latency of some event in the window stands at a rank: at least so many events take no longer, and fewer than
      so many take less. */
  ghost predicate StandsAt(
      events: seq<TelemetryEvent>, permitted: set<Environment>, observedOnly: bool, latency: int, rank: nat)
  {
    && (exists e <- events :: InWindow(e, permitted, observedOnly) && e.latencyMs == latency)
    && HowMany(events, InsideBelow(permitted, observedOnly, latency)) < rank
    && rank <= HowMany(events, InsideWithin(permitted, observedOnly, latency))
  }

  function LatencyOf(p: int -> bool): TelemetryEvent -> bool { (e: TelemetryEvent) => p(e.latencyMs) }

  function Unsorted(events: seq<TelemetryEvent>): seq<int> {
    seq(|events|, i requires 0 <= i < |events| => events[i].latencyMs)
  }

  lemma {:induction false} CountUnsorted(p: int -> bool, events: seq<TelemetryEvent>)
    ensures Count(p, Unsorted(events)) == Count(LatencyOf(p), events)
  {
    if events != [] {
      assert Unsorted(events)[1..] == Unsorted(events[1..]);
      CountUnsorted(p, events[1..]);
    }
  }

  lemma {:induction false} CountLatencies(p: int -> bool, window: seq<TelemetryEvent>)
    ensures Count(p, Latencies(window)) == Count(LatencyOf(p), window)
  {
    assert Latencies(window) == Sort(LatencyLeq, Unsorted(window));
    CountPermutation(p, Latencies(window), Unsorted(window));
    CountUnsorted(p, window);
  }

  function AtMost(x: int): int -> bool { y => y <= x }

  function Below(x: int): int -> bool { y => y < x }

  /** The value at a position of a sorted sequence, by how many are at most it and how many are below it. */
  lemma {:induction false} SortedCounts(sorted: seq<int>, rank: nat)
    requires Sorted(LatencyLeq, sorted) && 1 <= rank <= |sorted|
    ensures Count(Below(sorted[rank - 1]), sorted) < rank <= Count(AtMost(sorted[rank - 1]), sorted)
  {
    var x := sorted[rank - 1];
    assert sorted == sorted[..rank] + sorted[rank..];
    forall y <- sorted[..rank] ensures AtMost(x)(y) { SortedTo(sorted, rank - 1, y); }
    CountExtremes(AtMost(x), sorted[..rank]);
    CountConcat(AtMost(x), sorted[..rank], sorted[rank..]);
    assert sorted == sorted[..rank - 1] + sorted[rank - 1..];
    forall y <- sorted[rank - 1..] ensures !Below(x)(y) { SortedFrom(sorted, rank - 1, y); }
    CountExtremes(Below(x), sorted[rank - 1..]);
    CountConcat(Below(x), sorted[..rank - 1], sorted[rank - 1..]);
  }

  lemma {:induction false} SortedTo(sorted: seq<int>, i: nat, y: int)
    requires Sorted(LatencyLeq, sorted) && i < |sorted| && y in sorted[..i + 1]
    ensures y <= sorted[i]
  {
    var j :| 0 <= j <= i && sorted[..i + 1][j] == y;
    if j < i { assert LatencyLeq(sorted[j], sorted[i]); }
  }

  lemma {:induction false} SortedFrom(sorted: seq<int>, i: nat, y: int)
    requires Sorted(LatencyLeq, sorted) && i < |sorted| && y in sorted[i..]
    ensures sorted[i] <= y
  {
    var j :| 0 <= j < |sorted| - i && sorted[i..][j] == y;
    if 0 < j { assert LatencyLeq(sorted[i], sorted[i + j]); }
  }

  lemma {:induction false} LatencyStands(
      events: seq<TelemetryEvent>, permitted: set<Environment>, observedOnly: bool, rank: nat)
    requires 1 <= rank <= |Window(events, permitted, observedOnly)|
    ensures |Latencies(Window(events, permitted, observedOnly))| == |Window(events, permitted, observedOnly)|
    ensures StandsAt(events, permitted, observedOnly, Latencies(Window(events, permitted, observedOnly))[rank - 1],
                     rank)
  {
    var window := Window(events, permitted, observedOnly);
    LatenciesSorted(window);
    var sorted := Latencies(window);
    var x := sorted[rank - 1];
    SortedCounts(sorted, rank);
    CountLatencies(AtMost(x), window);
    CountLatencies(Below(x), window);
    CountInWindow(events, permitted, observedOnly, LatencyOf(AtMost(x)), InsideWithin(permitted, observedOnly, x));
    CountInWindow(events, permitted, observedOnly, LatencyOf(Below(x)), InsideBelow(permitted, observedOnly, x));
    LatencyTaken(window, rank - 1);
    var e :| e in window && e.latencyMs == x;
    assert e in events && InWindow(e, permitted, observedOnly);
  }

  lemma {:induction false} LatencyTaken(window: seq<TelemetryEvent>, i: nat)
    requires i < |Latencies(window)|
    ensures exists e <- window :: e.latencyMs == Latencies(window)[i]
  {
    var x, unsorted := Latencies(window)[i], Unsorted(window);
    assert Latencies(window) == Sort(LatencyLeq, unsorted);
    SameElements(Latencies(window), unsorted);
    assert x in Latencies(window);
    var j :| 0 <= j < |unsorted| && unsorted[j] == x;
    assert window[j] in window;
  }

  /** The ranks each reported percentile may stand at: within a half of the exact share, and the nearest rank, or where
      the exact share is less than halfway to it the rank below. */
  predicate RankFor(percent: nat, n: nat, rank: nat) {
    && WithinHalf(percent, n, rank)
    && (Beyond(percent, n) == 0 || Beyond(percent, n) > 50 ==> rank == NearestRank(percent, n))
    && (0 < Beyond(percent, n) < 50 ==> rank + 1 == NearestRank(percent, n))
  }

  lemma {:induction false} PercentileStands(
      events: seq<TelemetryEvent>, permitted: set<Environment>, observedOnly: bool, percent: nat, r: int)
    requires percent == 50 || percent == 95
    requires Window(events, permitted, observedOnly) != []
    requires RoundedShare(percent, 100, |Window(events, permitted, observedOnly)|, r)
    ensures var window := Window(events, permitted, observedOnly);
            var value := Percentile(Latencies(window), r);
            && value.Some?
            && exists rank: nat ::
                 RankFor(percent, |window|, rank) && StandsAt(events, permitted, observedOnly, value.value, rank)
  {
    var window := Window(events, permitted, observedOnly);
    var rank := RankIndex(|window|, r) + 1;
    RankInRange(percent, |window|, r);
    NearestRankIff(percent, |window|, r);
    LatencyStands(events, permitted, observedOnly, rank);
    assert RankFor(percent, |window|, rank);
  }

  /** Each reported percentile is the latency of an event in the window, at a rank its share of the window allows. */
  lemma {:induction false} PercentilesMean(
      events: seq<TelemetryEvent>, permitted: set<Environment>, minimum: nat, observedOnly: bool,
      round: (nat, nat) -> int, roundShare: (nat, nat) -> int)
    requires RoundsShares(roundShare)
    ensures var m := Compute(events, permitted, minimum, observedOnly, round, roundShare);
            && (m.latencyP50.Some? <==> 0 < m.total) && (m.latencyP95.Some? <==> 0 < m.total)
            && (0 < m.total ==>
                  && (exists rank: nat :: RankFor(50, m.total, rank)
                                          && StandsAt(events, permitted, observedOnly, m.latencyP50.value, rank))
                  && (exists rank: nat :: RankFor(95, m.total, rank)
                                          && StandsAt(events, permitted, observedOnly, m.latencyP95.value, rank)))
  {
    var window := Window(events, permitted, observedOnly);
    LatenciesSorted(window);
    if window != [] {
      PercentileStands(events, permitted, observedOnly, 50, roundShare(50, |window|));
      PercentileStands(events, permitted, observedOnly, 95, roundShare(95, |window|));
    }
  }
}
