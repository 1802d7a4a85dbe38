/** Numbered identifiers, and time that passes on request. */
module Identifiers {

  function Digit(d: nat): char
    requires d < 10
  {
    "0123456789"[d]
  }

  function Decimal(n: nat): string {
    if n < 10 then [Digit(n)] else Decimal(n / 10) + [Digit(n % 10)]
  }

  function Zeros(n: nat): string { seq(n, _ => '0') }

  /** `{n:04d}`: at least four digits, more when the number needs them. */
  function Padded(n: nat): string {
    var digits := Decimal(n);
    if |digits| < 4 then Zeros(4 - |digits|) + digits else digits
  }

  /** Reads decimal digits back, leading zeros included. */
  function ReadBack(s: string): int {
    if s == [] then 0 else 10 * ReadBack(s[..|s| - 1]) + (s[|s| - 1] as int - '0' as int)
  }

  lemma {:induction false} DecimalReadsBack(n: nat)
    ensures ReadBack(Decimal(n)) == n
  {
    if 10 <= n {
      DecimalReadsBack(n / 10);
      assert Decimal(n)[..|Decimal(n)| - 1] == Decimal(n / 10);
    } else {
      assert [Digit(n)][..0] == [];
    }
  }

  lemma {:induction false} LeadingZeros(k: nat, s: string)
    ensures ReadBack(Zeros(k) + s) == ReadBack(s)
  {
    if s != [] {
      LeadingZeros(k, s[..|s| - 1]);
      assert (Zeros(k) + s)[..|Zeros(k) + s| - 1] == Zeros(k) + s[..|s| - 1];
    } else if 0 < k {
      assert (Zeros(k) + s)[..k - 1] == Zeros(k - 1) + s;
      LeadingZeros(k - 1, s);
    } else {
      assert Zeros(k) + s == s;
    }
  }

  /** Padding loses nothing, at four digits or beyond. */
  lemma {:induction false} PaddedReadsBack(n: nat)
    ensures ReadBack(Padded(n)) == n
  {
    DecimalReadsBack(n);
    if |Decimal(n)| < 4 { LeadingZeros(4 - |Decimal(n)|, Decimal(n)); }
  }

  function Identifier(prefix: string, seed: string, n: nat): string {
    prefix + "-" + seed + "-" + Padded(n)
  }

  predicate Digits(s: string) { forall c <- s :: '0' <= c <= '9' }

  lemma {:induction false} DecimalDigits(n: nat)
    ensures Decimal(n) != "" && Digits(Decimal(n))
    ensures 0 < n ==> Decimal(n)[0] != '0'
  {
    if 10 <= n { DecimalDigits(n / 10); }
  }

  /** An identifier is its prefix, its seed and its number, between hyphens; the number is written in at least four
      digits, and in more only if it needs them. */
  lemma {:induction false} IdentifierReads(prefix: string, seed: string, n: nat)
    ensures var stem := prefix + "-" + seed + "-";
            && stem <= Identifier(prefix, seed, n)
            && var number := Identifier(prefix, seed, n)[|stem|..];
               4 <= |number| && Digits(number) && ReadBack(number) == n && (4 < |number| ==> number[0] != '0')
  {
    var stem := prefix + "-" + seed + "-";
    assert Identifier(prefix, seed, n) == stem + Padded(n);
    PaddedReadsBack(n);
    DecimalDigits(n);
  }

  /** Different counts give different identifiers, however large they grow. */
  lemma {:induction false} IdentifiersDistinct(prefix: string, seed: string, m: nat, n: nat)
    ensures Identifier(prefix, seed, m) == Identifier(prefix, seed, n) <==> m == n
    ensures Identifier(prefix, seed, m) != ""
  {
    PaddedReadsBack(m);
    PaddedReadsBack(n);
    var stem := prefix + "-" + seed + "-";
    assert Identifier(prefix, seed, m)[|stem|..] == Padded(m);
    assert Identifier(prefix, seed, n)[|stem|..] == Padded(n);
  }

  /** One of the first `count` identifiers of a prefix. */
  predicate IssuedBefore(prefix: string, seed: string, count: nat, id: string) {
    0 < count && (id == Identifier(prefix, seed, count) || IssuedBefore(prefix, seed, count - 1, id))
  }

  lemma {:induction false} IssuedStays(prefix: string, seed: string, count: nat, id: string)
    requires IssuedBefore(prefix, seed, count, id)
    ensures IssuedBefore(prefix, seed, count + 1, id)
  {
  }

  lemma {:induction false} IssuedIsNotLater(prefix: string, seed: string, count: nat, later: nat, id: string)
    requires IssuedBefore(prefix, seed, count, id) && count < later
    ensures id != Identifier(prefix, seed, later)
  {
    IdentifiersDistinct(prefix, seed, count, later);
    if id != Identifier(prefix, seed, count) { IssuedIsNotLater(prefix, seed, count - 1, later, id); }
  }

  lemma {:induction false} IssuedIsNotNext(prefix: string, seed: string, count: nat, id: string)
    requires IssuedBefore(prefix, seed, count, id)
    ensures id != Identifier(prefix, seed, count + 1)
  {
    IssuedIsNotLater(prefix, seed, count, count + 1, id);
  }

  type Counters = map<string, nat>

  function Issued(counters: Counters, prefix: string): nat {
    if prefix in counters then counters[prefix] else 0
  }

  function Issue(counters: Counters, prefix: string): Counters {
    counters[prefix := Issued(counters, prefix) + 1]
  }

  class SequentialIdFactory {
    const seed: string
    var counters: Counters

    constructor (seed: string)
      ensures this.seed == seed && counters == map[]
    {
      this.seed := seed;
      counters := map[];
    }

    /** The next identifier for a prefix; the counters of other prefixes do not move. */
    method NewId(prefix: string) returns (id: string)
      modifies this
      ensures counters == Issue(old(counters), prefix)
      ensures id == Identifier(prefix, seed, Issued(counters, prefix))
    {
      var next := Issued(counters, prefix) + 1;
      counters := counters[prefix := next];
      id := Identifier(prefix, seed, next);
    }

    method Reset()
      modifies this
      ensures counters == map[]
    {
      counters := map[];
    }
  }

  /** Time stands still between ticks. */
  class FixedClock {
    const step: int
    var now: int

    constructor (start: int, step: int)
      ensures now == start && this.step == step
    {
      now := start;
      this.step := step;
    }

    method Now() returns (t: int)
      ensures t == now
    {
      t := now;
    }

    method Tick() returns (t: int)
      modifies this
      ensures now == old(now) + step && t == now
    {
      now := now + step;
      t := now;
    }
  }
}
