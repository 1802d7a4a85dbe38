/** Behaviour metrics over telemetry: what is counted, what is withheld, and which rank a percentile reads. */
module Metrics {
  import opened Collections
  import opened Sorting
  import opened Rounding
  import opened Domain
  import opened Telemetry

  datatype BehaviorMetrics = BehaviorMetrics(
    total: nat, insufficientSample: bool, grounded: nat, refused: nat, faults: nat,
    reasonCodeCounts: multiset<ReasonCode>, groundedRate: Option<int>, refusedRate: Option<int>, faultRate: Option<int>,
    latencyP50: Option<int>, latencyP95: Option<int>, latencyObservations: nat,
    syntheticExcluded: nat, otherEnvironmentExcluded: nat)

  function IsObserved(permitted: set<Environment>): TelemetryEvent -> bool {
    (e: TelemetryEvent) => e.environment in permitted && e.population.OBSERVED?
  }

  function IsSynthetic(): TelemetryEvent -> bool { (e: TelemetryEvent) => !e.population.OBSERVED? }

  function IsElsewhere(permitted: set<Environment>): TelemetryEvent -> bool {
    (e: TelemetryEvent) => e.population.OBSERVED? && e.environment !in permitted
  }

  function IsGrounded(): TelemetryEvent -> bool { (e: TelemetryEvent) => e.outcome.GROUNDED? }

  function FaultEvent(): TelemetryEvent -> bool { (e: TelemetryEvent) => IsFault(e) }

  function ReasonCodes(events: seq<TelemetryEvent>): seq<ReasonCode> {
    if events == [] then []
    else (if events[0].reasonCode.Some? then [events[0].reasonCode.value] else []) + ReasonCodes(events[1..])
  }

  /** A rate in ten-thousandths; an insufficient sample has none. */
  function Rate(part: nat, whole: nat, sufficient: bool, round: (nat, nat) -> int): Option<int> {
    if !sufficient || whole == 0 then None else Some(round(part, whole))
  }

  predicate LatencyLeq(a: int, b: int) { a <= b }

  function Latencies(events: seq<TelemetryEvent>): seq<int> {
    Sort(LatencyLeq, seq(|events|, i requires 0 <= i < |events| => events[i].latencyMs))
  }

  /** The clamped index a rounded rank reads. */
  function RankIndex(n: nat, rounded: int): int {
    var capped := if rounded - 1 < n - 1 then rounded - 1 else n - 1;
    if capped < 0 then 0 else capped
  }

  function Percentile(sorted: seq<int>, rounded: int): Option<int> {
    if sorted == [] then None else Some(sorted[RankIndex(|sorted|, rounded)])
  }

  /** Rounding of a whole number of percent of n. */
  ghost predicate RoundsShares(roundShare: (nat, nat) -> int) {
    forall percent: nat, n: nat :: RoundedShare(percent, 100, n, roundShare(percent, n))
  }

  function Compute(
      events: seq<TelemetryEvent>, permitted: set<Environment>, minimum: nat, observedOnly: bool,
      round: (nat, nat) -> int, roundShare: (nat, nat) -> int): BehaviorMetrics {
    var window := if observedOnly then Filter(IsObserved(permitted), events) else events;
    var total := |window|;
    var sufficient := total >= minimum;
    var grounded := Count(IsGrounded(), window);
    var faults := Count(FaultEvent(), window);
    var latencies := Latencies(window);
    BehaviorMetrics(
      total, !sufficient, grounded, total - grounded, faults, multiset(ReasonCodes(window)),
      Rate(grounded, total, sufficient, round), Rate(total - grounded, total, sufficient, round),
      Rate(faults, total, sufficient, round),
      Percentile(latencies, roundShare(50, total)), Percentile(latencies, roundShare(95, total)), |latencies|,
      if observedOnly then Count(IsSynthetic(), events) else 0,
      if observedOnly then Count(IsElsewhere(permitted), events) else 0)
  }

  lemma {:induction false} EventsPartition(events: seq<TelemetryEvent>, permitted: set<Environment>)
    ensures |Filter(IsObserved(permitted), events)| + Count(IsSynthetic(), events)
          + Count(IsElsewhere(permitted), events) == |events|
  {
    if events != [] { EventsPartition(events[1..], permitted); }
  }

  /** Counts are never withheld: every event of the window is reported or reported as excluded. */
  lemma {:induction false} NothingWithheld(
      events: seq<TelemetryEvent>, permitted: set<Environment>, minimum: nat, observedOnly: bool,
      round: (nat, nat) -> int, roundShare: (nat, nat) -> int)
    ensures var m := Compute(events, permitted, minimum, observedOnly, round, roundShare);
            m.total + m.syntheticExcluded + m.otherEnvironmentExcluded == |events| && m.latencyObservations == m.total
  {
    EventsPartition(events, permitted);
  }

  lemma {:induction false} RefusalsExplained(events: seq<TelemetryEvent>)
    requires forall e <- events :: Related(e)
    ensures |ReasonCodes(events)| == |events| - Count(IsGrounded(), events)
    ensures Count(FaultEvent(), events) <= |events| - Count(IsGrounded(), events)
  {
    if events != [] {
      assert Related(events[0]) && forall e <- events[1..] :: e in events;
      RefusalsExplained(events[1..]);
    }
  }

  /** Over events captured from records, each refusal is explained by exactly one reason code, and faults are
      refusals. */
  lemma {:induction false} ReasonsMatchRefusals(
      events: seq<TelemetryEvent>, permitted: set<Environment>, minimum: nat, observedOnly: bool,
      round: (nat, nat) -> int, roundShare: (nat, nat) -> int)
    requires forall e <- events :: Related(e)
    ensures var m := Compute(events, permitted, minimum, observedOnly, round, roundShare);
            |m.reasonCodeCounts| == m.refused && m.faults <= m.refused && m.grounded + m.refused == m.total
  {
    RefusalsExplained(if observedOnly then Filter(IsObserved(permitted), events) else events);
  }

  /** A rate is shown exactly when the sample reaches the minimum and is not empty; shown rates of grounded and
      refused answers add up to one, up to one unit of rounding. */
  lemma {:induction false} RatesHonest(
      events: seq<TelemetryEvent>, permitted: set<Environment>, minimum: nat, observedOnly: bool,
      round: (nat, nat) -> int, roundShare: (nat, nat) -> int)
    requires RoundsRates(round)
    ensures var m := Compute(events, permitted, minimum, observedOnly, round, roundShare);
            && (m.groundedRate.Some? <==> minimum <= m.total && 0 < m.total)
            && (m.groundedRate.Some? <==> m.refusedRate.Some?) && (m.groundedRate.Some? <==> m.faultRate.Some?)
            && (m.groundedRate.Some? ==>
                  && RoundedRate(m.grounded, m.total, m.groundedRate.value)
                  && RoundedRate(m.refused, m.total, m.refusedRate.value)
                  && RoundedRate(m.faults, m.total, m.faultRate.value)
                  && 9999 <= m.groundedRate.value + m.refusedRate.value <= 10001)
  {
    var m := Compute(events, permitted, minimum, observedOnly, round, roundShare);
    if m.groundedRate.Some? {
      ComplementsNearlyAdd(m.grounded, m.total, m.groundedRate.value, m.refusedRate.value);
    }
  }

  /** A value read at a rank within a half of the exact share of the sample. */
  ghost predicate ReadsRank(sorted: seq<int>, percent: nat, value: int) {
    exists rank :: 1 <= rank <= |sorted| && sorted[rank - 1] == value && WithinHalf(percent, |sorted|, rank)
  }

  predicate WithinHalf(percent: nat, n: nat, rank: int) {
    100 * (2 * rank - 1) <= 2 * percent * n <= 100 * (2 * rank + 1)
  }

  /** For both fractions in use and every sample size, the clamped index is in range and its rank is within a
      half of the exact share. */
  lemma RankInRange(percent: nat, n: nat, r: int)
    requires (percent == 50 || percent == 95) && 1 <= n && RoundedShare(percent, 100, n, r)
    ensures 0 <= RankIndex(n, r) < n && WithinHalf(percent, n, RankIndex(n, r) + 1)
  {
  }

  /** The textbook nearest rank: the exact share of the sample, rounded up. */
  function NearestRank(percent: nat, n: nat): nat { (percent * n + 99) / 100 }

  /** The hundredths by which the exact share exceeds a whole rank. */
  function Beyond(percent: nat, n: nat): nat { percent * n % 100 }

  /** Rounding `m` hundredths, which are `whole` and `beyond`, gives one of the two neighbouring whole numbers. */
  lemma RoundsToNeighbour(m: nat, whole: nat, beyond: nat, r: int)
    requires m == 100 * whole + beyond && beyond < 100
    requires 100 * (2 * r - 1) <= 2 * m <= 100 * (2 * r + 1)
    ensures (r == whole && beyond <= 50) || (r == whole + 1 && beyond >= 50)
    ensures (m + 99) / 100 == if beyond == 0 then whole else whole + 1
  {
  }

  lemma ClampedRank(percent: nat, n: nat, whole: nat, beyond: nat, r: int)
    requires (percent == 50 || percent == 95) && 1 <= n && percent * n == 100 * whole + beyond
    requires (r == whole && beyond <= 50) || (r == whole + 1 && 50 <= beyond < 100)
    ensures RankIndex(n, r) + 1 == if r == 0 then 1 else r
    ensures r == 0 ==> n == 1 && beyond == 50
  {
  }

  /** The rank read is the nearest rank exactly when the exact share is a whole rank or more than halfway to the
      next; less than halfway, it is the rank below. At a tie it is what the tie is rounded to. */
  lemma NearestRankIff(percent: nat, n: nat, r: int)
    requires (percent == 50 || percent == 95) && 1 <= n && RoundedShare(percent, 100, n, r)
    ensures var rank := RankIndex(n, r) + 1;
            && (rank == NearestRank(percent, n) <==>
                  || Beyond(percent, n) == 0 || Beyond(percent, n) > 50
                  || (Beyond(percent, n) == 50 && (n == 1 || percent * n < 100 * r)))
            && NearestRank(percent, n) - 1 <= rank <= NearestRank(percent, n)
  {
    var m := percent * n;
    var whole, beyond := m / 100, m % 100;
    assert 2 * percent * n == 2 * m;
    RoundsToNeighbour(m, whole, beyond, r);
    ClampedRank(percent, n, whole, beyond, r);
  }

  /** Twelve latencies: the 95th percentile is read at rank 11, where the nearest rank is 12. */
  lemma NearestRankMissed(r: int)
    requires RoundedShare(95, 100, 12, r)
    ensures RankIndex(12, r) + 1 == 11 && NearestRank(95, 12) == 12
  {
  }

  /** Ties of the median go to the even rank, so it is read at the nearest rank exactly on samples that are even,
      one short of a multiple of four, or a single latency. Five latencies are read at rank 2, not 3. */
  lemma MedianNearestIff(n: nat, r: int)
    requires 1 <= n && RoundedShare(50, 100, n, r) && (n % 2 == 1 ==> r % 2 == 0)
    ensures RankIndex(n, r) + 1 == NearestRank(50, n) <==> n % 2 == 0 || n % 4 == 3 || n == 1
  {
    NearestRankIff(50, n, r);
    assert n == 2 * (n / 2) + n % 2;
  }

  lemma TieAtNinetyFifth(n: nat)
    ensures Beyond(95, n) == 50 <==> n % 40 == 10 || n % 40 == 30
  {
    var q, r := n / 40, n % 40;
    assert 95 * n == 100 * (38 * q) + 95 * r;
    HundredsDropOut(38 * q, 95 * r);
  }

  lemma HundredsDropOut(k: nat, m: nat)
    ensures (100 * k + m) % 100 == m % 100
  {
  }

  /** With ties to even, the 95th percentile is read at the nearest rank exactly when its exact share is a whole rank,
      past halfway, or halfway on a sample ten past a multiple of forty. */
  lemma NinetyFifthNearestIff(n: nat, r: int)
    requires 1 <= n && RoundedShare(95, 100, n, r) && (Beyond(95, n) == 50 ==> r % 2 == 0)
    ensures RankIndex(n, r) + 1 == NearestRank(95, n) <==>
              Beyond(95, n) == 0 || Beyond(95, n) > 50 || n % 40 == 10
  {
    NearestRankIff(95, n, r);
    TieAtNinetyFifth(n);
  }

  lemma MedianRankBelow(n: nat, r50: int, r95: int)
    requires 1 <= n && RoundedShare(50, 100, n, r50) && RoundedShare(95, 100, n, r95)
    ensures RankIndex(n, r50) <= RankIndex(n, r95)
  {
  }

  lemma LatencyOrder()
    ensures TotalPreorder(LatencyLeq)
  {
    assert forall x, y :: LatencyLeq(x, y) || LatencyLeq(y, x);
  }

  lemma {:induction false} LatenciesSorted(events: seq<TelemetryEvent>)
    ensures Sorted(LatencyLeq, Latencies(events)) && |Latencies(events)| == |events|
  {
    LatencyOrder();
    SortSorted(LatencyLeq, seq(|events|, i requires 0 <= i < |events| => events[i].latencyMs));
  }

  lemma {:induction false} PercentileReadsRank(sorted: seq<int>, percent: nat, r: int)
    requires (percent == 50 || percent == 95) && sorted != [] && RoundedShare(percent, 100, |sorted|, r)
    ensures Percentile(sorted, r).Some? && ReadsRank(sorted, percent, Percentile(sorted, r).value)
  {
    RankInRange(percent, |sorted|, r);
    var rank := RankIndex(|sorted|, r) + 1;
    assert sorted[rank - 1] == Percentile(sorted, r).value && WithinHalf(percent, |sorted|, rank);
  }

  lemma {:induction false} PercentilesInOrder(sorted: seq<int>, r50: int, r95: int)
    requires sorted != [] && Sorted(LatencyLeq, sorted)
    requires RoundedShare(50, 100, |sorted|, r50) && RoundedShare(95, 100, |sorted|, r95)
    ensures Percentile(sorted, r50).value <= Percentile(sorted, r95).value
  {
    var low, high := RankIndex(|sorted|, r50), RankIndex(|sorted|, r95);
    RankInRange(50, |sorted|, r50);
    RankInRange(95, |sorted|, r95);
    MedianRankBelow(|sorted|, r50, r95);
    if low < high { assert LatencyLeq(sorted[low], sorted[high]); }
  }

  /** Both percentiles are present exactly on a non-empty window, read the sorted latencies at a rank within a
      half of the exact share, and are ordered. */
  lemma {:induction false} PercentilesOrdered(
      events: seq<TelemetryEvent>, permitted: set<Environment>, minimum: nat, observedOnly: bool,
      round: (nat, nat) -> int, roundShare: (nat, nat) -> int)
    requires RoundsShares(roundShare)
    ensures var m := Compute(events, permitted, minimum, observedOnly, round, roundShare);
            var latencies := Latencies(if observedOnly then Filter(IsObserved(permitted), events) else events);
            && (m.latencyP50.Some? <==> 0 < m.total) && (m.latencyP95.Some? <==> 0 < m.total)
            && (0 < m.total ==>
                  && ReadsRank(latencies, 50, m.latencyP50.value)
                  && ReadsRank(latencies, 95, m.latencyP95.value)
                  && m.latencyP50.value <= m.latencyP95.value)
  {
    var window := if observedOnly then Filter(IsObserved(permitted), events) else events;
    var n, latencies := |window|, Latencies(window);
    LatenciesSorted(window);
    if 0 < n {
      PercentileReadsRank(latencies, 50, roundShare(50, n));
      PercentileReadsRank(latencies, 95, roundShare(95, n));
      PercentilesInOrder(latencies, roundShare(50, n), roundShare(95, n));
    }
  }

  /** A value is the one at the nearest rank, or, where the exact share is less than halfway to that rank, the one
      below it. */
  predicate AtNearest(sorted: seq<int>, percent: nat, value: int) {
    var rank, beyond := NearestRank(percent, |sorted|), Beyond(percent, |sorted|);
    && (beyond == 0 || beyond > 50 ==> 1 <= rank <= |sorted| && value == sorted[rank - 1])
    && (0 < beyond < 50 ==> 2 <= rank <= |sorted| && value == sorted[rank - 2])
  }

  lemma {:induction false} PercentileAtNearest(sorted: seq<int>, percent: nat, r: int)
    requires (percent == 50 || percent == 95) && sorted != [] && RoundedShare(percent, 100, |sorted|, r)
    ensures Percentile(sorted, r).Some? && AtNearest(sorted, percent, Percentile(sorted, r).value)
  {
    NearestRankIff(percent, |sorted|, r);
    RankInRange(percent, |sorted|, r);
  }

  /** What each percentile of the metrics is in terms of the nearest rank, ties aside. */
  lemma {:induction false} PercentilesNearest(
      events: seq<TelemetryEvent>, permitted: set<Environment>, minimum: nat, observedOnly: bool,
      round: (nat, nat) -> int, roundShare: (nat, nat) -> int)
    requires RoundsShares(roundShare)
    ensures var m := Compute(events, permitted, minimum, observedOnly, round, roundShare);
            var latencies := Latencies(if observedOnly then Filter(IsObserved(permitted), events) else events);
            0 < m.total ==>
              && m.latencyP50.Some? && AtNearest(latencies, 50, m.latencyP50.value)
              && m.latencyP95.Some? && AtNearest(latencies, 95, m.latencyP95.value)
  {
    var window := if observedOnly then Filter(IsObserved(permitted), events) else events;
    LatenciesSorted(window);
    if window != [] {
      PercentileAtNearest(Latencies(window), 50, roundShare(50, |window|));
      PercentileAtNearest(Latencies(window), 95, roundShare(95, |window|));
    }
  }
}
