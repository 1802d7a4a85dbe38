/** Aggregating evaluation results, and what the baseline gate really requires. */
module EvaluationGate {
  import opened Collections
  import opened Rounding

  datatype CaseResult = CaseResult(caseId: string, category: string, passed: bool)

  datatype Bucket = Bucket(total: nat, passed: nat)

  datatype SuiteSummary = SuiteSummary(
    total: nat, passed: nat, failed: nat, passRateUnits: int, byCategory: map<string, Bucket>,
    gateMinimum: real, gatePassed: bool)

  function HasPassed(): CaseResult -> bool { (r: CaseResult) => r.passed }

  function InCategory(category: string): CaseResult -> bool { (r: CaseResult) => r.category == category }

  function PassedIn(category: string): CaseResult -> bool { (r: CaseResult) => r.category == category && r.passed }

  function BucketOf(buckets: map<string, Bucket>, category: string): Bucket {
    if category in buckets then buckets[category] else Bucket(0, 0)
  }

  function Tally(buckets: map<string, Bucket>, r: CaseResult): map<string, Bucket> {
    var bucket := BucketOf(buckets, r.category);
    buckets[r.category := Bucket(bucket.total + 1, bucket.passed + if r.passed then 1 else 0)]
  }

  /** A rate of so many ten-thousandths meets a minimum. */
  predicate Meets(units: int, minimum: real) { units as real / 10000.0 >= minimum }

  /** Each category's bucket counts its results, and every result falls in its category's bucket. */
  ghost predicate Tallied(results: seq<CaseResult>, buckets: map<string, Bucket>) {
    && (forall category: string ::
          BucketOf(buckets, category)
          == Bucket(Count(InCategory(category), results), Count(PassedIn(category), results)))
    && (forall category <- buckets :: 0 < buckets[category].total)
  }

  lemma {:induction false} TallyOneMore(results: seq<CaseResult>, buckets: map<string, Bucket>, r: CaseResult)
    requires Tallied(results, buckets)
    ensures Tallied(results + [r], Tally(buckets, r))
  {
    forall category: string
      ensures BucketOf(Tally(buckets, r), category)
           == Bucket(Count(InCategory(category), results + [r]), Count(PassedIn(category), results + [r]))
    {
      CountConcat(InCategory(category), results, [r]);
      CountConcat(PassedIn(category), results, [r]);
      assert [r][1..] == [];
      assert BucketOf(buckets, category)
        == Bucket(Count(InCategory(category), results), Count(PassedIn(category), results));
    }
  }

  // ---- Conservation over categories ------------------------------------------------------

  ghost function Sum(counts: map<string, nat>): nat {
    if counts == map[] then 0
    else
      var k :| k in counts;
      counts[k] + Sum(counts - {k})
  }

  lemma {:induction false} SumAt(counts: map<string, nat>, k: string)
    requires k in counts
    ensures Sum(counts) == counts[k] + Sum(counts - {k})
    decreases |counts|
  {
    var j :| j in counts && Sum(counts) == counts[j] + Sum(counts - {j});
    if j != k {
      SumAt(counts - {j}, k);
      SumAt(counts - {k}, j);
      assert counts - {j} - {k} == counts - {k} - {j};
    }
  }

  function Totals(buckets: map<string, Bucket>): map<string, nat> { map c <- buckets :: buckets[c].total }

  function Passes(buckets: map<string, Bucket>): map<string, nat> { map c <- buckets :: buckets[c].passed }

  lemma {:induction false} SumUpdate(counts: map<string, nat>, k: string, n: nat)
    ensures Sum(counts[k := n]) + (if k in counts then counts[k] else 0) == Sum(counts) + n
  {
    SumAt(counts[k := n], k);
    assert counts[k := n] - {k} == counts - {k};
    if k in counts { SumAt(counts, k); } else { assert counts - {k} == counts; }
  }

  lemma {:induction false} TallySums(buckets: map<string, Bucket>, r: CaseResult)
    ensures Sum(Totals(Tally(buckets, r))) == Sum(Totals(buckets)) + 1
    ensures Sum(Passes(Tally(buckets, r))) == Sum(Passes(buckets)) + if r.passed then 1 else 0
  {
    var bucket := Tally(buckets, r)[r.category];
    assert Totals(Tally(buckets, r)) == Totals(buckets)[r.category := bucket.total];
    assert Passes(Tally(buckets, r)) == Passes(buckets)[r.category := bucket.passed];
    SumUpdate(Totals(buckets), r.category, bucket.total);
    SumUpdate(Passes(buckets), r.category, bucket.passed);
  }

  /** Aggregates results and applies the baseline gate. An empty suite fails it. */
  method Summarize(results: seq<CaseResult>, minimum: real, round: (nat, nat) -> int) returns (s: SuiteSummary)
    requires RoundsRates(round)
    ensures s.total == |results| && s.passed == Count(HasPassed(), results) && s.failed + s.passed == s.total
    ensures s.passed == Having(results, HasPassed()) && s.gateMinimum == minimum
    ensures if s.total > 0 then RoundedRate(s.passed, s.total, s.passRateUnits) else s.passRateUnits == 0
    ensures s.gatePassed <==> s.total > 0 && Meets(s.passRateUnits, minimum)
    ensures Tallied(results, s.byCategory)
    ensures Sum(Totals(s.byCategory)) == s.total && Sum(Passes(s.byCategory)) == s.passed
  {
    var byCategory: map<string, Bucket> := map[];
    var passed := 0;
    assert Totals(byCategory) == map[] && Passes(byCategory) == map[];
    for i := 0 to |results|
      invariant passed == Count(HasPassed(), results[..i])
      invariant Tallied(results[..i], byCategory)
      invariant Sum(Totals(byCategory)) == i && Sum(Passes(byCategory)) == passed
    {
      var r := results[i];
      assert results[..i + 1] == results[..i] + [r];
      CountConcat(HasPassed(), results[..i], [r]);
      assert [r][1..] == [];
      TallyOneMore(results[..i], byCategory, r);
      TallySums(byCategory, r);
      byCategory := Tally(byCategory, r);
      passed := passed + if r.passed then 1 else 0;
    }
    assert results[..|results|] == results;
    CountHaving(results, HasPassed());
    var total := |results|;
    var units := if total > 0 then round(passed, total) else 0;
    s := SuiteSummary(total, passed, total - passed, units, byCategory, minimum, total > 0 && Meets(units, minimum));
  }

  /** How many results have a property. */
  function Having(
      results: seq<CaseResult>, p: CaseResult -> bool): nat { |set i: nat | i < |results| && p(results[i])| }

  lemma {:induction false} CountHaving(results: seq<CaseResult>, p: CaseResult -> bool)
    ensures Count(p, results) == Having(results, p)
  {
    CountPositions(p, results);
    assert Positions(p, results) == set i: nat | i < |results| && p(results[i]);
  }

  /** What the buckets say: how many results are of a category, and how many of these passed. */
  lemma {:induction false} BucketsMean(results: seq<CaseResult>, buckets: map<string, Bucket>, category: string)
    requires Tallied(results, buckets)
    ensures var bucket := BucketOf(buckets, category);
            && bucket.total == |set i: nat | i < |results| && results[i].category == category|
            && bucket.passed == |set i: nat | i < |results| && results[i].category == category && results[i].passed|
            && (category in buckets <==> exists r <- results :: r.category == category)
  {
    CountPositions(InCategory(category), results);
    CountPositions(PassedIn(category), results);
    assert Positions(InCategory(category), results) == set i: nat | i < |results| && results[i].category == category;
    assert Positions(PassedIn(category), results)
      == set i: nat | i < |results| && results[i].category == category && results[i].passed;
    CountExtremes(InCategory(category), results);
    assert BucketOf(buckets, category)
      == Bucket(Count(InCategory(category), results), Count(PassedIn(category), results));
  }

  lemma {:induction false} PassedMeans(results: seq<CaseResult>)
    ensures Count(HasPassed(), results) == |set i: nat | i < |results| && results[i].passed|
  {
    CountPositions(HasPassed(), results);
    assert Positions(HasPassed(), results) == set i: nat | i < |results| && results[i].passed;
  }

  // ---- What the gate requires ------------------------------------------------------------

  lemma MeetsWhole(units: int)
    ensures Meets(units, 1.0) <==> 10000 <= units
  {
  }

  /** The contract asks for a perfect pass rate. A suite meets a minimum of one exactly when fewer than one case
      in twenty thousand fails: with fewer than 20000 cases for each failure the failures are caught, with more
      they are rounded away, and at exactly 20000 the rate is a rounding tie. */
  lemma GateAtOne(total: nat, passed: nat, units: int)
    requires 0 < total && passed <= total && RoundedRate(passed, total, units)
    ensures Meets(units, 1.0) <==>
              20000 * (total - passed) < total || (20000 * (total - passed) == total && units == 10000)
    ensures 20000 * (total - passed) == total <==> RoundedRate(passed, total, 9999) && RoundedRate(passed, total, 10000)
  {
    RoundsToWhole(passed, total, units);
    MeetsWhole(units);
  }

  /** For every suite the reference could plausibly hold, the gate means what the contract says. */
  lemma SmallSuitesNeedPerfection(total: nat, passed: nat, units: int)
    requires 0 < total < 20000 && passed <= total && RoundedRate(passed, total, units)
    ensures Meets(units, 1.0) <==> passed == total
  {
    GateAtOne(total, passed, units);
  }

  /** Beyond that, some divergence passes: one failure is rounded away. */
  lemma LargeSuitesForgiveOne(total: nat, units: int)
    requires 20000 < total && RoundedRate(total - 1, total, units)
    ensures Meets(units, 1.0)
  {
    GateAtOne(total, total - 1, units);
  }

  /** The gate demands perfection of a suite exactly when the suite is smaller than 20000 cases. */
  lemma PerfectionDemandedIff(total: nat)
    requires 0 < total
    ensures (forall passed: nat, units: int :: passed <= total && RoundedRate(passed, total, units)
               ==> (Meets(units, 1.0) <==> passed == total))
            <==> total < 20000
  {
    if total < 20000 {
      forall passed: nat, units: int | passed <= total && RoundedRate(passed, total, units)
        ensures Meets(units, 1.0) <==> passed == total
      {
        SmallSuitesNeedPerfection(total, passed, units);
      }
    } else {
      assert RoundedRate(total - 1, total, 10000) && Meets(10000, 1.0);
    }
  }

  lemma ScaleReal(a: real, b: real, k: real)
    requires a <= b && 0.0 <= k
    ensures a * k <= b * k
  {
    assert (b - a) * k >= 0.0;
  }

  /** For any minimum, passing the gate puts the true rate within half a unit of it: the passes are at least
      the minimum less one twenty-thousandth, as a share of the total. */
  lemma PassingIsNearMinimum(total: nat, passed: nat, units: int, minimum: real)
    requires RoundedRate(passed, total, units) && Meets(units, minimum)
    ensures passed as real >= (minimum - 1.0 / 20000.0) * total as real
  {
    var least, half: real := minimum - 1.0 / 20000.0, (2 * units - 1) as real / 20000.0;
    ScaleReal(least, half, total as real);
    var product := (2 * units - 1) * total;
    assert product as real == (2 * units - 1) as real * total as real;
    assert half * total as real == product as real / 20000.0;
  }

  lemma ScaleStrict(a: real, b: real, k: real)
    requires b < a && 0.0 < k
    ensures b * k < a * k
  {
    assert (a - b) * k > 0.0;
  }

  lemma CancelScale(a: real, b: real, k: real)
    requires 0.0 < k && a * k <= b * k
    ensures a <= b
  {
    if b < a { ScaleStrict(a, b, k); }
  }

  /** And the other way: a suite whose true rate is at least half a unit above the minimum passes. */
  lemma AboveMinimumPasses(total: nat, passed: nat, units: int, minimum: real)
    requires RoundedRate(passed, total, units)
    requires passed as real >= (minimum + 1.0 / 20000.0) * total as real
    ensures Meets(units, minimum)
  {
    var u, t, p := units as real, total as real, passed as real;
    assert 20000 * passed <= (2 * units + 1) * total;
    assert ((2 * units + 1) * total) as real == (2.0 * u + 1.0) * t;
    assert (20000.0 * minimum + 1.0) * t == 20000.0 * ((minimum + 1.0 / 20000.0) * t);
    CancelScale(20000.0 * minimum + 1.0, 2.0 * u + 1.0, t);
  }
}
