/** The bounded rolling window of outcomes kept for one verification mechanism. */
module HealthWindows {
  import opened Collections

  function FaultCount(outcomes: seq<bool>): (n: nat)
    ensures n <= |outcomes|
  {
    if outcomes == [] then 0 else (if outcomes[0] then 1 else 0) + FaultCount(outcomes[1..])
  }

  lemma {:induction false} FaultCountConcat(xs: seq<bool>, ys: seq<bool>)
    ensures FaultCount(xs + ys) == FaultCount(xs) + FaultCount(ys)
  {
    if xs == [] {
      assert xs + ys == ys;
    } else {
      assert (xs + ys)[1..] == xs[1..] + ys;
      FaultCountConcat(xs[1..], ys);
    }
  }

  /** The observed fault rate: zero when nothing has been observed. */
  function FaultRate(outcomes: seq<bool>): real {
    if outcomes == [] then 0.0 else Quotient(FaultCount(outcomes), |outcomes|)
  }

  function Quotient(part: nat, whole: nat): real
    requires 0 < whole
  {
    part as real / whole as real
  }

  function Share(bar: real, whole: nat): real { bar * whole as real }

  lemma RatioExceeds(ratio: real, part: real, whole: real, bar: real)
    requires 0.0 < whole && ratio == part / whole
    ensures ratio > bar <==> part > bar * whole
  {
    assert ratio * whole == part;
    assert (ratio - bar) * whole == part - bar * whole;
    if ratio > bar { assert (ratio - bar) * whole > 0.0; }
    if ratio < bar { assert (bar - ratio) * whole > 0.0; }
  }

  lemma QuotientExceeds(part: nat, whole: nat, bar: real)
    requires 0 < whole
    ensures Quotient(part, whole) > bar <==> part as real > Share(bar, whole)
  {
    RatioExceeds(Quotient(part, whole), part as real, whole as real, bar);
  }

  /** A rate exceeds a bar exactly when the fault count exceeds that share of the observations. */
  lemma {:induction false} RateExceeds(outcomes: seq<bool>, bar: real)
    requires outcomes != []
    ensures FaultRate(outcomes) > bar <==> FaultCount(outcomes) as real > Share(bar, |outcomes|)
  {
    QuotientExceeds(FaultCount(outcomes), |outcomes|, bar);
  }

  /** A window keeps a bounded deque of outcomes; its ghost history is everything it was ever told. */
  class HealthWindow {
    const capacity: nat
    var outcomes: seq<bool>      // oldest first
    ghost var history: seq<bool> // every outcome since creation or the last reset

    ghost predicate Valid()
      reads this
    {
      outcomes == LastN(history, capacity)
    }

    constructor (capacity: nat)
      ensures Valid() && this.capacity == capacity && history == []
    {
      this.capacity := capacity;
      outcomes, history := [], [];
    }

    /** Appends an outcome to a deque of bounded length: once it is full, the oldest outcome falls out. */
    method Record(faulted: bool)
      requires Valid()
      modifies this
      ensures Valid() && history == old(history) + [faulted]
    {
      history := history + [faulted];
      outcomes := outcomes + [faulted];
      if |outcomes| > capacity {
        outcomes := outcomes[1..];
      }
    }

    method Reset()
      requires Valid()
      modifies this
      ensures Valid() && history == []
    {
      outcomes, history := [], [];
    }

    /** Counts the faults among the outcomes the window still holds. */
    method Faults() returns (n: nat)
      requires Valid()
      ensures n == FaultCount(LastN(history, capacity))
    {
      n := 0;
      for i := 0 to |outcomes|
        invariant n == FaultCount(outcomes[..i])
      {
        assert outcomes[..i + 1] == outcomes[..i] + [outcomes[i]];
        FaultCountConcat(outcomes[..i], [outcomes[i]]);
        if outcomes[i] {
          n := n + 1;
        }
      }
      assert outcomes[..|outcomes|] == outcomes;
    }

    method Rate() returns (rate: real)
      requires Valid()
      ensures rate == FaultRate(LastN(history, capacity))
      ensures history == [] ==> rate == 0.0
    {
      if outcomes == [] {
        rate := 0.0;
      } else {
        var faults := Faults();
        rate := Quotient(faults, |outcomes|);
      }
    }
  }
}
