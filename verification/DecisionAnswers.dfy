/** What a decision says of a response, stated from the response alone, and that nothing else is left open. */
module DecisionAnswers {
  import opened Collections
  import opened Domain
  import opened Claims
  import opened DecisionFunction

  /** A claim that parses, with a SUPPORTED verdict. */
  predicate Supports(raw: RawClaim) { raw.Mapping? && ParseClaim(raw).Success? && StandsFor(raw.verdict, SUPPORTED) }

  ghost predicate DefectIs(raws: seq<RawClaim>, code: ReasonCode) {
    exists i :: 0 <= i < |raws| && FirstDefect(raws, i) && ParseClaim(raws[i]) == Failure(code)
  }

  /** Whole and well-formed output with at least one claim. */
  predicate Examined(r: VerifierResponse) { !r.truncated && WellFormed(r.claims) && r.claims != [] }

  predicate AllSupport(raws: seq<RawClaim>) { forall raw <- raws :: Supports(raw) }

  predicate NoneSupport(raws: seq<RawClaim>) { forall raw <- raws :: !Supports(raw) }

  /** The defect of a response that each code stands for; no code stands for a response without one. */
  ghost predicate Explains(r: VerifierResponse, code: Option<ReasonCode>) {
    match code
    case None => Examined(r) && AllSupport(r.claims) && r.answersQuestion == Some(true)
    case Some(VERIFIER_OUTPUT_TRUNCATED) => r.truncated
    case Some(MISSING_CLAIM_VERDICT) => !r.truncated && DefectIs(r.claims, MISSING_CLAIM_VERDICT)
    case Some(UNKNOWN_CLAIM_VERDICT) => !r.truncated && DefectIs(r.claims, UNKNOWN_CLAIM_VERDICT)
    case Some(MALFORMED_VERIFIER_OUTPUT) =>
      || (!r.truncated && DefectIs(r.claims, MALFORMED_VERIFIER_OUTPUT))
      || (Examined(r) && AllSupport(r.claims) && r.answersQuestion == None)
    case Some(EMPTY_CLAIM_SET) => !r.truncated && r.claims == []
    case Some(NO_SUPPORTED_CLAIMS) => Examined(r) && NoneSupport(r.claims)
    case Some(UNSUPPORTED_CLAIM) => Examined(r) && !NoneSupport(r.claims) && !AllSupport(r.claims)
    case Some(DOES_NOT_ADDRESS_QUESTION) => Examined(r) && AllSupport(r.claims) && r.answersQuestion == Some(false)
    case Some(_) => false
  }

  lemma SupportsMeaning(raw: RawClaim)
    requires ParseClaim(raw).Success?
    ensures Supports(raw) <==> ParseClaim(raw).value.verdict.SUPPORTED?
  {
    ParsedAsWritten(raw, ParseClaim(raw).value);
  }

  lemma {:induction false} SupportCounts(raws: seq<RawClaim>)
    requires WellFormed(raws)
    ensures Count(OfParsed(HasVerdict(SUPPORTED)), raws) == 0 <==> NoneSupport(raws)
    ensures Count(OfParsed(HasVerdict(SUPPORTED)), raws) == |raws| <==> AllSupport(raws)
  {
    CountExtremes(OfParsed(HasVerdict(SUPPORTED)), raws);
    forall raw <- raws ensures OfParsed(HasVerdict(SUPPORTED))(raw) <==> Supports(raw) { SupportsMeaning(raw); }
  }

  /** The code of a decision is the one that explains the response. */
  lemma {:induction false} DecisionExplained(r: VerifierResponse)
    ensures Explains(r, Decide(r).reasonCode)
  {
    ParseMeaning(r.claims);
    if !r.truncated {
      if WellFormed(r.claims) {
        SupportCounts(r.claims);
        RuledByCounts(r);
        assert Decide(r).reasonCode == RulingOf(Decide(r)).reasonCode;
      } else {
        DefectExplains(r);
      }
    }
  }

  lemma {:induction false} DefectExplains(r: VerifierResponse)
    requires !r.truncated && !WellFormed(r.claims)
    ensures Explains(r, Decide(r).reasonCode)
  {
    ParseMeaning(r.claims);
    var code := Parse(r.claims).error;
    assert DefectIs(r.claims, code);
    var i :| 0 <= i < |r.claims| && FirstDefect(r.claims, i) && ParseClaim(r.claims[i]) == Failure(code);
    assert code.MISSING_CLAIM_VERDICT? || code.UNKNOWN_CLAIM_VERDICT? || code.MALFORMED_VERIFIER_OUTPUT?;
  }

  lemma DefectExcludes(raws: seq<RawClaim>, a: ReasonCode, b: ReasonCode)
    requires DefectIs(raws, a)
    ensures !WellFormed(raws) && raws != []
    ensures DefectIs(raws, b) ==> a == b
  {
    var i :| 0 <= i < |raws| && FirstDefect(raws, i) && ParseClaim(raws[i]) == Failure(a);
    assert raws[i] in raws;
    if DefectIs(raws, b) {
      var j :| 0 <= j < |raws| && FirstDefect(raws, j) && ParseClaim(raws[j]) == Failure(b);
      assert i == j;
    }
  }

  lemma NoneIsNotAll(raws: seq<RawClaim>)
    requires raws != []
    ensures !(AllSupport(raws) && NoneSupport(raws))
  {
    assert raws[0] in raws;
  }

  /** At most one code explains a response. */
  lemma {:induction false} OneExplanation(r: VerifierResponse, a: Option<ReasonCode>, b: Option<ReasonCode>)
    requires Explains(r, a) && Explains(r, b)
    ensures a == b
  {
    if r.claims != [] { NoneIsNotAll(r.claims); }
    if a.Some? && b.Some? && DefectIs(r.claims, a.value) { DefectExcludes(r.claims, a.value, b.value); }
    if a.Some? && DefectIs(r.claims, a.value) { DefectExcludes(r.claims, a.value, a.value); }
    if b.Some? && DefectIs(r.claims, b.value) { DefectExcludes(r.claims, b.value, b.value); }
  }

  /** How many of some claims carry a verdict. */
  function Carrying(claims: seq<Claim>, v: ClaimVerdict): nat { |set i: nat | i < |claims| && claims[i].verdict == v| }

  /** The claims a decision carries are the response's, entry by entry, and its counts are theirs. */
  ghost predicate CarriesClaims(r: VerifierResponse, d: VerificationDecision) {
    if r.truncated || !WellFormed(r.claims) then d.claims == [] && d.counts == NotMeasured
    else
      && |d.claims| == |r.claims|
      && (forall i :: 0 <= i < |r.claims| ==> SaysAs(d.claims[i], r.claims[i]))
      && d.counts == Measured(|d.claims|, Carrying(d.claims, SUPPORTED), Carrying(d.claims, UNSUPPORTED),
                              Carrying(d.claims, CONTRADICTED))
  }

  lemma {:induction false} CarryingCounts(claims: seq<Claim>, v: ClaimVerdict)
    ensures Count(HasVerdict(v), claims) == Carrying(claims, v)
  {
    CountPositions(HasVerdict(v), claims);
    assert Positions(HasVerdict(v), claims) == set i: nat | i < |claims| && claims[i].verdict == v;
  }

  lemma {:induction false} CountsCarried(claims: seq<Claim>)
    ensures CountClaims(claims)
         == Measured(|claims|, Carrying(claims, SUPPORTED), Carrying(claims, UNSUPPORTED),
                     Carrying(claims, CONTRADICTED))
  {
    CarryingCounts(claims, SUPPORTED);
    CarryingCounts(claims, UNSUPPORTED);
    CarryingCounts(claims, CONTRADICTED);
  }

  lemma {:induction false} ParsedAlike(r: VerifierResponse)
    requires !r.truncated && WellFormed(r.claims)
    ensures Parse(r.claims).Success? && Decide(r).claims == Parse(r.claims).value
    ensures Decide(r).counts == CountClaims(Parse(r.claims).value)
  {
    ParseMeaning(r.claims);
  }

  lemma {:induction false} DecisionCarriesClaims(r: VerifierResponse)
    ensures CarriesClaims(r, Decide(r))
  {
    ParseMeaning(r.claims);
    if !r.truncated && WellFormed(r.claims) {
      var claims := Parse(r.claims).value;
      CountsCarried(claims);
      forall i | 0 <= i < |r.claims| ensures SaysAs(claims[i], r.claims[i]) {
        ParsedAsWritten(r.claims[i], claims[i]);
      }
      ParsedAlike(r);
    }
  }

  /** What a decision has to say of a response. */
  ghost predicate Decides(r: VerifierResponse, d: VerificationDecision) {
    && d.mechanism == r.mechanism && d.latencyMs == r.latencyMs
    && OutcomeRelation(d.outcome, d.strategy, d.reasonCode)
    && Explains(r, d.reasonCode)
    && (d.outcome.GROUNDED? ==>
          (d.strategy == Some(BOUNDED) <==> exists raw <- r.claims :: raw.Mapping? && raw.statesScopeLimitation))
    && CarriesClaims(r, d)
  }

  lemma {:induction false} ScopeAsWritten(raws: seq<RawClaim>)
    requires WellFormed(raws)
    ensures (exists raw <- raws :: ParseClaim(raw).value.statesScopeLimitation)
            <==> exists raw <- raws :: raw.Mapping? && raw.statesScopeLimitation
  {
    forall raw <- raws
      ensures raw.Mapping? && ParseClaim(raw).value.statesScopeLimitation == raw.statesScopeLimitation
    {
      ParsedAsWritten(raw, ParseClaim(raw).value);
    }
  }

  /** The decision function says all of it, for every response. */
  lemma {:induction false} DecideDecides(r: VerifierResponse)
    ensures Decides(r, Decide(r))
  {
    DecisionExplained(r);
    DecisionCarriesClaims(r);
    GroundedIffWarranted(r);
    if Decide(r).outcome.GROUNDED? { ScopeAsWritten(r.claims); }
  }

  /** And nothing is left open: only one decision does. */
  lemma {:induction false} DecisionUnique(r: VerifierResponse, d: VerificationDecision)
    requires Decides(r, d)
    ensures d == Decide(r)
  {
    DecideDecides(r);
    var e := Decide(r);
    OneExplanation(r, d.reasonCode, e.reasonCode);
    SameClaims(r, d, e);
    assert d.outcome == e.outcome;
    if d.outcome.GROUNDED? {
      assert d.strategy.value.BOUNDED? <==> e.strategy.value.BOUNDED?;
      assert d.strategy == e.strategy;
    }
  }

  lemma StandsForOne(raw: RawVerdict, v: ClaimVerdict, u: ClaimVerdict)
    requires StandsFor(raw, v) && StandsFor(raw, u)
    ensures v == u
  {
  }

  lemma {:induction false} SameClaims(r: VerifierResponse, d: VerificationDecision, e: VerificationDecision)
    requires CarriesClaims(r, d) && CarriesClaims(r, e)
    ensures d.claims == e.claims && d.counts == e.counts
  {
    if !r.truncated && WellFormed(r.claims) {
      forall i | 0 <= i < |r.claims| ensures d.claims[i] == e.claims[i] {
        assert SaysAs(d.claims[i], r.claims[i]) && SaysAs(e.claims[i], r.claims[i]);
        StandsForOne(r.claims[i].verdict, d.claims[i].verdict, e.claims[i].verdict);
      }
      assert d.claims == e.claims;
    }
  }
}
