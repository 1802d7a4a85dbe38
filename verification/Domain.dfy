/** The controlled vocabulary and the value types shared across the governed path. */
module Domain {
  import opened Collections

  datatype ClaimVerdict = SUPPORTED | UNSUPPORTED | CONTRADICTED

  datatype DecisionOutcome = GROUNDED | REFUSED

  datatype ResponseStrategy = DIRECT | BOUNDED

  datatype ReasonCode =
    | UNSUPPORTED_CLAIM
    | NO_SUPPORTED_CLAIMS
    | DOES_NOT_ADDRESS_QUESTION
    | INSUFFICIENT_EVIDENCE
    | EMPTY_CLAIM_SET
    | MISSING_CLAIM_VERDICT
    | UNKNOWN_CLAIM_VERDICT
    | MALFORMED_VERIFIER_OUTPUT
    | VERIFIER_ERROR
    | VERIFIER_TIMEOUT
    | VERIFIER_OUTPUT_TRUNCATED
    | NO_VERIFIER_AVAILABLE
    | AUTHORIZATION_DENIED
    | EVIDENCE_PROVENANCE_INVALID
    | CONTRACT_VERSION_UNKNOWN
    | CONTRACT_NOT_RATIFIED
    | CONTRACT_UNRESOLVED
    | REVIEW_ACCEPTED
    | REVIEW_REJECTED
    | SUPERSESSION_REPLACED

  datatype AuthorizationResult = ALLOWED | DENIED

  datatype EvidenceQuality = SUFFICIENT | INSUFFICIENT | EMPTY

  datatype ActorType = PRINCIPAL | SYSTEM

  datatype Environment = PRODUCTION | STAGING | DEVELOPMENT | TEST

  datatype Population = OBSERVED | SYNTHETIC

  /** The code a verifier's fault carries: a value of the controlled vocabulary, or any other text. */
  datatype RawCode = Controlled(code: ReasonCode) | Uncontrolled(text: string)

  /** An uncontrolled code becomes the generic fault; the vocabulary never grows at the call site. */
  function ReasonCodeOrError(raw: RawCode): ReasonCode {
    match raw
    case Controlled(code) => code
    case Uncontrolled(_) => VERIFIER_ERROR
  }

  datatype Actor = Actor(actorId: string, actorType: ActorType, role: Option<string>) {
    predicate IsAccountableHuman() {
      actorType.PRINCIPAL? && Named(role)
    }
  }

  /** Present and not empty: the truth value of an optional string. */
  predicate Named(text: Option<string>) {
    text.Some? && text.value != ""
  }

  datatype Claim = Claim(text: string, verdict: ClaimVerdict, evidenceRef: Option<string>, statesScopeLimitation: bool)

  /** Claims carry text, and only a SUPPORTED claim may cite evidence. */
  predicate ValidClaim(c: Claim) {
    c.text != "" && (c.verdict.SUPPORTED? || c.evidenceRef.None?)
  }

  /** Counts by verdict; `NotMeasured` is not the same fact as a total of zero. */
  datatype ClaimCounts =
    | NotMeasured
    | Measured(total: nat, supported: nat, unsupported: nat, contradicted: nat)

  function HasVerdict(v: ClaimVerdict): Claim -> bool { (c: Claim) => c.verdict == v }

  function CountClaims(claims: seq<Claim>): ClaimCounts {
    Measured(|claims|, Count(HasVerdict(SUPPORTED), claims), Count(HasVerdict(UNSUPPORTED), claims),
             Count(HasVerdict(CONTRADICTED), claims))
  }

  /** Every claim is counted under exactly one verdict. */
  lemma {:induction false} CountsAddUp(claims: seq<Claim>)
    ensures var counts := CountClaims(claims);
            counts.supported + counts.unsupported + counts.contradicted == counts.total
  {
    if claims != [] { CountsAddUp(claims[1..]); }
  }
}
