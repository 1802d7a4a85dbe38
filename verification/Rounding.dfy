/** Rounding to the nearest unit as a relation: within half a unit, with ties left open. */
module Rounding {

  /** `units` ten-thousandths is a rounding of `part / whole` to four decimals. */
  predicate RoundedRate(part: nat, whole: nat, units: int) {
    0 < whole && (2 * units - 1) * whole <= 20000 * part <= (2 * units + 1) * whole
  }

  /** `r` is a rounding of `(p / q) * n` to a whole number. */
  predicate RoundedShare(p: nat, q: nat, n: nat, r: int) {
    0 < q && q * (2 * r - 1) <= 2 * p * n <= q * (2 * r + 1)
  }

  /** A rule that rounds every proper rate. */
  ghost predicate RoundsRates(round: (nat, nat) -> int) {
    forall part: nat, whole: nat :: part <= whole && 0 < whole ==> RoundedRate(part, whole, round(part, whole))
  }

  lemma Scale(a: int, b: int, k: nat)
    requires a <= b
    ensures a * k <= b * k
  {
  }

  /** A rounded rate reaches one whole exactly when fewer than one part in twenty thousand is missing; exactly
      one part in twenty thousand is the tie. */
  lemma RoundsToWhole(part: nat, whole: nat, units: int)
    requires RoundedRate(part, whole, units) && part <= whole
    ensures 20000 * (whole - part) < whole ==> units == 10000
    ensures 20000 * (whole - part) > whole ==> units < 10000
    ensures units <= 10000
  {
    if 20000 * (whole - part) < whole && units < 10000 {
      Scale(2 * units + 1, 19999, whole);
    }
    if 20000 * (whole - part) > whole && 10000 <= units {
      Scale(19999, 2 * units - 1, whole);
    }
    if 10001 <= units {
      Scale(20001, 2 * units - 1, whole);
    }
  }

  /** Rates of complementary parts add up to one, up to one unit. */
  lemma ComplementsNearlyAdd(part: nat, whole: nat, units: int, otherUnits: int)
    requires part <= whole && RoundedRate(part, whole, units) && RoundedRate(whole - part, whole, otherUnits)
    ensures 9999 <= units + otherUnits <= 10001
  {
    var sum := units + otherUnits;
    assert (2 * units - 1) * whole + (2 * otherUnits - 1) * whole == (2 * sum - 2) * whole;
    assert (2 * units + 1) * whole + (2 * otherUnits + 1) * whole == (2 * sum + 2) * whole;
    assert 20000 * part + 20000 * (whole - part) == 20000 * whole;
    if 10001 < sum { Scale(20002, 2 * sum - 2, whole); }
    if sum < 9999 { Scale(2 * sum + 2, 19998, whole); }
  }
}
