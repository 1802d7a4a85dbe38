/** The decision function: a verifier response mapped to a governed decision, failing closed. */
module DecisionFunction {
  import opened Collections
  import opened Domain
  import opened Claims

  datatype VerifierResponse = VerifierResponse(
    mechanism: string, claims: seq<RawClaim>, answersQuestion: Option<bool>, truncated: bool, latencyMs: nat)

  datatype VerificationDecision = VerificationDecision(
    outcome: DecisionOutcome, strategy: Option<ResponseStrategy>, reasonCode: Option<ReasonCode>,
    claims: seq<Claim>, counts: ClaimCounts, mechanism: string, latencyMs: nat)

  /** The relation enforced on decisions, records and telemetry alike: a strategy exactly on grounded
      outcomes, a reason code exactly on refusals. */
  predicate OutcomeRelation(outcome: DecisionOutcome, strategy: Option<ResponseStrategy>, code: Option<ReasonCode>) {
    if outcome.GROUNDED? then strategy.Some? && code.None? else strategy.None? && code.Some?
  }

  function Refuse(
      code: ReasonCode, mechanism: string, latencyMs: nat, claims: seq<Claim>, counts: ClaimCounts)
    : VerificationDecision
  {
    VerificationDecision(REFUSED, None, Some(code), claims, counts, mechanism, latencyMs)
  }

  function Ground(
      strategy: ResponseStrategy, mechanism: string, claims: seq<Claim>, latencyMs: nat)
    : VerificationDecision
  {
    VerificationDecision(GROUNDED, Some(strategy), None, claims, CountClaims(claims), mechanism, latencyMs)
  }

  function IsBounded(): Claim -> bool { (c: Claim) => c.statesScopeLimitation }

  function IsRejected(): Claim -> bool { (c: Claim) => !c.verdict.SUPPORTED? }

  function SelectStrategy(claims: seq<Claim>): ResponseStrategy {
    if exists c <- claims :: c.statesScopeLimitation then BOUNDED else DIRECT
  }

  function Decide(r: VerifierResponse): (d: VerificationDecision)
    ensures OutcomeRelation(d.outcome, d.strategy, d.reasonCode)
    ensures d.mechanism == r.mechanism && d.latencyMs == r.latencyMs
  {
    if r.truncated then Refuse(VERIFIER_OUTPUT_TRUNCATED, r.mechanism, r.latencyMs, [], NotMeasured)
    else
      match Parse(r.claims)
      case Failure(code) => Refuse(code, r.mechanism, r.latencyMs, [], NotMeasured)
      case Success(claims) =>
        var counts := CountClaims(claims);
        var supported := Filter(HasVerdict(SUPPORTED), claims);
        var rejected := Filter(IsRejected(), claims);
        if claims == [] then Refuse(EMPTY_CLAIM_SET, r.mechanism, r.latencyMs, [], counts)
        else if supported == [] then Refuse(NO_SUPPORTED_CLAIMS, r.mechanism, r.latencyMs, claims, counts)
        else if rejected != [] then Refuse(UNSUPPORTED_CLAIM, r.mechanism, r.latencyMs, claims, counts)
        else if r.answersQuestion.None? then Refuse(MALFORMED_VERIFIER_OUTPUT, r.mechanism, r.latencyMs, claims, counts)
        else if !r.answersQuestion.value then
          Refuse(DOES_NOT_ADDRESS_QUESTION, r.mechanism, r.latencyMs, claims, counts)
        else Ground(SelectStrategy(claims), r.mechanism, claims, r.latencyMs)
  }

  /** A response that warrants a grounded answer: whole, well formed, not empty, every claim SUPPORTED, and relevant. */
  ghost predicate Warranted(r: VerifierResponse) {
    && !r.truncated
    && WellFormed(r.claims)
    && r.claims != []
    && (forall raw <- r.claims :: ParseClaim(raw).value.verdict.SUPPORTED?)
    && r.answersQuestion == Some(true)
  }

  lemma {:induction false} SupportMeaning(claims: seq<Claim>)
    ensures Filter(HasVerdict(SUPPORTED), claims) == [] <==> Count(HasVerdict(SUPPORTED), claims) == 0
    ensures Filter(IsRejected(), claims) == [] <==> Count(HasVerdict(SUPPORTED), claims) == |claims|
    ensures Filter(IsRejected(), claims) == [] <==> forall c <- claims :: c.verdict.SUPPORTED?
  {
    FilterKeeps(HasVerdict(SUPPORTED), claims);
    FilterKeeps(IsRejected(), claims);
    CountExtremes(HasVerdict(SUPPORTED), claims);
  }

  lemma {:induction false} EveryClaim(claims: seq<Claim>, p: Claim -> bool)
    ensures (forall c <- claims :: p(c)) <==> forall i :: 0 <= i < |claims| ==> p(claims[i])
  {
    if i :| 0 <= i < |claims| && !p(claims[i]) { assert claims[i] in claims; }
  }

  /** The only grounded exit, read off the parsed claims. */
  lemma {:induction false} GroundedOnClaims(r: VerifierResponse)
    requires !r.truncated && WellFormed(r.claims)
    ensures Parse(r.claims).Success?
    ensures var d, claims := Decide(r), Parse(r.claims).value;
            && (d.outcome.GROUNDED? <==> claims != [] && r.answersQuestion == Some(true)
                                         && forall i :: 0 <= i < |claims| ==> claims[i].verdict.SUPPORTED?)
            && (d.outcome.GROUNDED? ==>
                  d.strategy
                    == Some(if exists i :: 0 <= i < |claims| && claims[i].statesScopeLimitation then BOUNDED
                            else DIRECT))
  {
    ParseMeaning(r.claims);
    var claims := Parse(r.claims).value;
    SupportMeaning(claims);
    EveryClaim(claims, HasVerdict(SUPPORTED));
    EveryClaim(claims, IsUnbounded());
  }

  function IsUnbounded(): Claim -> bool { (c: Claim) => !c.statesScopeLimitation }

  /** A decision is grounded exactly when the response warrants it, and is then bounded exactly when some claim
      states a limitation. */
  lemma {:induction false} GroundedIffWarranted(r: VerifierResponse)
    ensures var d := Decide(r);
            && (d.outcome.GROUNDED? <==> Warranted(r))
            && (d.outcome.GROUNDED? ==>
                  (d.strategy == Some(BOUNDED) <==>
                   exists raw <- r.claims :: ParseClaim(raw).value.statesScopeLimitation))
  {
    ParseMeaning(r.claims);
    if !r.truncated && WellFormed(r.claims) {
      GroundedOnClaims(r);
      ParsedElements(r.claims, HasVerdict(SUPPORTED));
      ParsedElements(r.claims, IsUnbounded());
      EveryClaim(Parse(r.claims).value, HasVerdict(SUPPORTED));
      EveryClaim(Parse(r.claims).value, IsUnbounded());
    }
  }

  /** Claims are counted exactly when the response is whole and well formed, and then every one of them is. */
  lemma {:induction false} CountedIffWellFormed(r: VerifierResponse)
    ensures var counts := Decide(r).counts;
            && (counts.Measured? <==> !r.truncated && WellFormed(r.claims))
            && (counts.Measured? ==> counts.total == |r.claims|)
  {
    ParseMeaning(r.claims);
  }

  // ---- The algebra of decisions ----------------------------------------------------------

  /** What is ruled about an answer, apart from who verified it and how long it took. */
  datatype Ruling = Ruling(outcome: DecisionOutcome, strategy: Option<ResponseStrategy>, reasonCode: Option<ReasonCode>,
                           counts: ClaimCounts)

  function RulingOf(d: VerificationDecision): Ruling {
    Ruling(d.outcome, d.strategy, d.reasonCode, d.counts)
  }

  function Refused(code: ReasonCode, counts: ClaimCounts): Ruling { Ruling(REFUSED, None, Some(code), counts) }

  /** The ruling on well-formed claims, from nothing but how many there are of each sort. */
  function RuleByCounts(counts: ClaimCounts, bounded: nat, answers: Option<bool>): Ruling
    requires counts.Measured?
  {
    if counts.total == 0 then Refused(EMPTY_CLAIM_SET, counts)
    else if counts.supported == 0 then Refused(NO_SUPPORTED_CLAIMS, counts)
    else if counts.supported < counts.total then Refused(UNSUPPORTED_CLAIM, counts)
    else if answers.None? then Refused(MALFORMED_VERIFIER_OUTPUT, counts)
    else if !answers.value then Refused(DOES_NOT_ADDRESS_QUESTION, counts)
    else Ruling(GROUNDED, Some(if bounded == 0 then DIRECT else BOUNDED), None, counts)
  }

  function RawCounts(raws: seq<RawClaim>): ClaimCounts {
    Measured(|raws|, Count(OfParsed(HasVerdict(SUPPORTED)), raws), Count(OfParsed(HasVerdict(UNSUPPORTED)), raws),
             Count(OfParsed(HasVerdict(CONTRADICTED)), raws))
  }

  lemma {:induction false} RuledOnClaims(r: VerifierResponse)
    requires !r.truncated && Parse(r.claims).Success?
    ensures var claims := Parse(r.claims).value;
            RulingOf(Decide(r)) == RuleByCounts(CountClaims(claims), Count(IsBounded(), claims), r.answersQuestion)
  {
    var claims := Parse(r.claims).value;
    SupportMeaning(claims);
    CountExtremes(IsBounded(), claims);
  }

  lemma {:induction false} ParsedCounts(raws: seq<RawClaim>)
    requires WellFormed(raws)
    ensures Parse(raws).Success? && CountClaims(Parse(raws).value) == RawCounts(raws)
    ensures Count(IsBounded(), Parse(raws).value) == Count(OfParsed(IsBounded()), raws)
  {
    ParseMeaning(raws);
    ParsedCount(raws, HasVerdict(SUPPORTED));
    ParsedCount(raws, HasVerdict(UNSUPPORTED));
    ParsedCount(raws, HasVerdict(CONTRADICTED));
    ParsedCount(raws, IsBounded());
  }

  lemma {:induction false} RuledByCounts(r: VerifierResponse)
    requires !r.truncated && WellFormed(r.claims)
    ensures RulingOf(Decide(r))
              == RuleByCounts(RawCounts(r.claims), Count(OfParsed(IsBounded()), r.claims), r.answersQuestion)
  {
    ParsedCounts(r.claims);
    RuledOnClaims(r);
  }

  lemma {:induction false} SameElementsWellFormed(xs: seq<RawClaim>, ys: seq<RawClaim>)
    requires multiset(xs) == multiset(ys) && WellFormed(xs)
    ensures WellFormed(ys) && |xs| == |ys|
  {
    assert |multiset(xs)| == |multiset(ys)|;
    forall raw <- ys ensures ParseClaim(raw).Success? {
      assert raw in multiset(ys);
    }
  }

  /** The order in which a verifier lists its claims never changes the outcome or the strategy, and on
      well-formed claims it changes neither the reason code nor the counts. */
  lemma {:induction false} OrderIrrelevant(r: VerifierResponse, claims: seq<RawClaim>)
    requires multiset(claims) == multiset(r.claims)
    ensures var d, e := Decide(r), Decide(r.(claims := claims));
            && d.outcome == e.outcome && d.strategy == e.strategy
            && (WellFormed(claims) ==> RulingOf(d) == RulingOf(e))
  {
    var s := r.(claims := claims);
    GroundedIffWarranted(r);
    GroundedIffWarranted(s);
    if WellFormed(claims) || WellFormed(r.claims) {
      if WellFormed(claims) { SameElementsWellFormed(claims, r.claims); }
      if WellFormed(r.claims) { SameElementsWellFormed(r.claims, claims); }
      if !r.truncated {
        RuledByCounts(r);
        RuledByCounts(s);
        CountPermutation(OfParsed(HasVerdict(SUPPORTED)), claims, r.claims);
        CountPermutation(OfParsed(HasVerdict(UNSUPPORTED)), claims, r.claims);
        CountPermutation(OfParsed(HasVerdict(CONTRADICTED)), claims, r.claims);
        CountPermutation(OfParsed(IsBounded()), claims, r.claims);
      }
    }
  }

  function AddCounts(a: ClaimCounts, b: ClaimCounts): ClaimCounts
    requires a.Measured? && b.Measured?
  {
    Measured(a.total + b.total, a.supported + b.supported, a.unsupported + b.unsupported,
             a.contradicted + b.contradicted)
  }

  /** An answer checked in two non-empty parts is grounded exactly when both parts are, and is then bounded
      exactly when either part is. */
  lemma {:induction false} GroundedByParts(r: VerifierResponse, xs: seq<RawClaim>, ys: seq<RawClaim>)
    requires xs != [] && ys != [] && r.claims == xs + ys
    ensures var whole, left, right := Decide(r), Decide(r.(claims := xs)), Decide(r.(claims := ys));
            && (whole.outcome.GROUNDED? <==> left.outcome.GROUNDED? && right.outcome.GROUNDED?)
            && (whole.outcome.GROUNDED? ==>
                  (whole.strategy == Some(BOUNDED) <==>
                   left.strategy == Some(BOUNDED) || right.strategy == Some(BOUNDED)))
  {
    GroundedIffWarranted(r);
    GroundedIffWarranted(r.(claims := xs));
    GroundedIffWarranted(r.(claims := ys));
    assert forall raw :: raw in r.claims <==> raw in xs || raw in ys;
  }

  predicate RejectionOf(code: Option<ReasonCode>) {
    code == Some(NO_SUPPORTED_CLAIMS) || code == Some(UNSUPPORTED_CLAIM)
  }

  /** The ruling on a whole, given the rulings on its two parts. */
  predicate Combines(whole: Ruling, left: Ruling, right: Ruling) {
    && left.counts.Measured? && right.counts.Measured?
    && whole.counts == AddCounts(left.counts, right.counts)
    && (whole.reasonCode == Some(NO_SUPPORTED_CLAIMS) <==>
          left.reasonCode == Some(NO_SUPPORTED_CLAIMS) && right.reasonCode == Some(NO_SUPPORTED_CLAIMS))
    && (RejectionOf(whole.reasonCode) <==> RejectionOf(left.reasonCode) || RejectionOf(right.reasonCode))
    && (!RejectionOf(whole.reasonCode) ==> whole.reasonCode == left.reasonCode == right.reasonCode)
  }

  lemma CountRulingsCombine(a: ClaimCounts, b: ClaimCounts, m: nat, n: nat, answers: Option<bool>)
    requires a.Measured? && b.Measured? && 0 < a.total && 0 < b.total
    requires a.supported <= a.total && b.supported <= b.total
    ensures Combines(RuleByCounts(AddCounts(a, b), m + n, answers), RuleByCounts(a, m, answers),
                     RuleByCounts(b, n, answers))
  {
  }

  lemma FieldsAdd(whole: ClaimCounts, left: ClaimCounts, right: ClaimCounts)
    requires whole.Measured? && left.Measured? && right.Measured?
    requires whole.total == left.total + right.total && whole.supported == left.supported + right.supported
    requires whole.unsupported == left.unsupported + right.unsupported
    requires whole.contradicted == left.contradicted + right.contradicted
    ensures whole == AddCounts(left, right)
  {
  }

  lemma {:induction false} RawCountsAdd(xs: seq<RawClaim>, ys: seq<RawClaim>)
    ensures RawCounts(xs + ys) == AddCounts(RawCounts(xs), RawCounts(ys))
  {
    CountConcat(OfParsed(HasVerdict(SUPPORTED)), xs, ys);
    CountConcat(OfParsed(HasVerdict(UNSUPPORTED)), xs, ys);
    CountConcat(OfParsed(HasVerdict(CONTRADICTED)), xs, ys);
    FieldsAdd(RawCounts(xs + ys), RawCounts(xs), RawCounts(ys));
  }

  /** How the rulings on two non-empty well-formed parts combine: counts add; nothing is supported only if
      nothing is in either part; any rejected claim in either part rejects the whole; otherwise the parts agree. */
  lemma {:induction false} RulingsCombine(r: VerifierResponse, xs: seq<RawClaim>, ys: seq<RawClaim>)
    requires xs != [] && ys != [] && r.claims == xs + ys
    requires !r.truncated && WellFormed(xs) && WellFormed(ys)
    ensures Combines(RulingOf(Decide(r)), RulingOf(Decide(r.(claims := xs))), RulingOf(Decide(r.(claims := ys))))
  {
    assert WellFormed(r.claims);
    RuledByCounts(r);
    RuledByCounts(r.(claims := xs));
    RuledByCounts(r.(claims := ys));
    RawCountsAdd(xs, ys);
    CountConcat(OfParsed(IsBounded()), xs, ys);
    CountRulingsCombine(RawCounts(xs), RawCounts(ys), Count(OfParsed(IsBounded()), xs),
                        Count(OfParsed(IsBounded()), ys), r.answersQuestion);
  }

  /** A malformed response is refused with the code of its first defective claim, and nothing is counted. */
  lemma {:induction false} FirstDefectDecides(r: VerifierResponse, i: nat)
    requires !r.truncated && i < |r.claims| && FirstDefect(r.claims, i)
    ensures var d := Decide(r);
            d.outcome.REFUSED? && d.counts.NotMeasured? && d.claims == []
              && Failure(d.reasonCode.value) == ParseClaim(r.claims[i])
  {
    ParseUnique(r.claims, Failure(ParseClaim(r.claims[i]).error));
  }
}
