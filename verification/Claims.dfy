/** From raw verifier output to claims: every raw claim must parse, or none does. */
module Claims {
  import opened Collections
  import opened Domain

  /** The `verdict` entry of a raw claim, as far as parsing can tell values apart. */
  datatype RawVerdict =
    | VerdictAbsent
    | VerdictNone
    | VerdictMember(verdict: ClaimVerdict)
    | VerdictText(text: string)
    | VerdictOther(shown: string) // some other object, with its string form

  /** The `evidence_ref` entry: absent or null, a string, or something that is not a string. */
  datatype RawRef = NoRef | RefText(text: string) | RefOther

  /** A raw claim: `text` is the entry's string form, empty when the entry is absent. */
  datatype RawClaim =
    | NotAMapping
    | Mapping(verdict: RawVerdict, text: string, evidenceRef: RawRef, statesScopeLimitation: bool)

  function VerdictName(v: ClaimVerdict): string {
    match v
    case SUPPORTED => "SUPPORTED"
    case UNSUPPORTED => "UNSUPPORTED"
    case CONTRADICTED => "CONTRADICTED"
  }

  function VerdictNamed(name: string): (v: Option<ClaimVerdict>)
    ensures v.Some? ==> VerdictName(v.value) == name
    ensures v.None? ==> forall w: ClaimVerdict :: VerdictName(w) != name
  {
    if name == "SUPPORTED" then Some(SUPPORTED)
    else if name == "UNSUPPORTED" then Some(UNSUPPORTED)
    else if name == "CONTRADICTED" then Some(CONTRADICTED)
    else None
  }

  predicate VerdictMissing(v: RawVerdict) {
    v.VerdictAbsent? || v.VerdictNone? || v == VerdictText("")
  }

  function VerdictOf(v: RawVerdict): Option<ClaimVerdict> {
    match v
    case VerdictMember(verdict) => Some(verdict)
    case VerdictText(text) => VerdictNamed(text)
    case VerdictOther(shown) => VerdictNamed(shown)
    case _ => None
  }

  /** The claim a raw mapping describes once its verdict is known, if it satisfies the claim invariants. */
  function BuildClaim(raw: RawClaim, verdict: ClaimVerdict): Option<Claim>
    requires raw.Mapping?
  {
    if raw.evidenceRef.RefOther? then None
    else
      var ref := if raw.evidenceRef.RefText? then Some(raw.evidenceRef.text) else None;
      var claim := Claim(raw.text, verdict, ref, raw.statesScopeLimitation);
      if ValidClaim(claim) then Some(claim) else None
  }

  /** One raw claim: the claim it becomes, or the code of its first defect. */
  function ParseClaim(raw: RawClaim): Result<Claim, ReasonCode> {
    if raw.NotAMapping? then Failure(MALFORMED_VERIFIER_OUTPUT)
    else if VerdictMissing(raw.verdict) then Failure(MISSING_CLAIM_VERDICT)
    else
      var verdict := VerdictOf(raw.verdict);
      if verdict.None? then Failure(UNKNOWN_CLAIM_VERDICT)
      else
        var claim := BuildClaim(raw, verdict.value);
        if claim.None? then Failure(MALFORMED_VERIFIER_OUTPUT) else Success(claim.value)
  }

  /** Which defect each code stands for. */
  lemma ClaimDefects(raw: RawClaim)
    ensures ParseClaim(raw) == Failure(MISSING_CLAIM_VERDICT) <==> raw.Mapping? && VerdictMissing(raw.verdict)
    ensures ParseClaim(raw) == Failure(UNKNOWN_CLAIM_VERDICT) <==>
              && raw.Mapping? && !VerdictMissing(raw.verdict) && !raw.verdict.VerdictMember?
              && forall v: ClaimVerdict :: raw.verdict != VerdictText(VerdictName(v))
                   && raw.verdict != VerdictOther(VerdictName(v))
    ensures ParseClaim(raw) == Failure(MALFORMED_VERIFIER_OUTPUT) <==>
              || raw.NotAMapping?
              || (VerdictOf(raw.verdict).Some? && (raw.text == "" || raw.evidenceRef.RefOther?
                                                   || (raw.evidenceRef.RefText?
                                                       && !VerdictOf(raw.verdict).value.SUPPORTED?)))
  {
    if raw.Mapping? && !VerdictMissing(raw.verdict) && VerdictOf(raw.verdict).Some? {
      var v := VerdictOf(raw.verdict).value;
      assert raw.verdict.VerdictMember? || raw.verdict == VerdictText(VerdictName(v))
        || raw.verdict == VerdictOther(VerdictName(v));
    }
  }

  /** A raw verdict entry stands for a verdict: the member itself, or an object shown by its name. */
  predicate StandsFor(raw: RawVerdict, v: ClaimVerdict) {
    var name := match v
      case SUPPORTED => "SUPPORTED"
      case UNSUPPORTED => "UNSUPPORTED"
      case CONTRADICTED => "CONTRADICTED";
    raw == VerdictMember(v) || raw == VerdictText(name) || raw == VerdictOther(name)
  }

  /** A claim says what the raw claim said, entry by entry. */
  predicate SaysAs(claim: Claim, raw: RawClaim) {
    && raw.Mapping?
    && StandsFor(raw.verdict, claim.verdict)
    && claim.text == raw.text && claim.statesScopeLimitation == raw.statesScopeLimitation
    && (match raw.evidenceRef
          case NoRef => claim.evidenceRef == None
          case RefText(text) => claim.evidenceRef == Some(text)
          case RefOther => false)
  }

  /** A raw claim parses into a claim exactly when that claim says the same, has text, and cites evidence only when
      SUPPORTED. */
  lemma ParsedAsWritten(raw: RawClaim, claim: Claim)
    ensures ParseClaim(raw) == Success(claim) <==>
              SaysAs(claim, raw) && claim.text != "" && (claim.evidenceRef.Some? ==> claim.verdict.SUPPORTED?)
  {
  }

  predicate WellFormed(raws: seq<RawClaim>) {
    forall raw <- raws :: ParseClaim(raw).Success?
  }

  /** The result of parsing a whole response, stated without reference to the order of the loop. */
  ghost predicate Parses(raws: seq<RawClaim>, result: Result<seq<Claim>, ReasonCode>) {
    match result
    case Success(claims) =>
      && |claims| == |raws|
      && forall i :: 0 <= i < |raws| ==> ParseClaim(raws[i]) == Success(claims[i])
    case Failure(code) =>
      exists i :: 0 <= i < |raws| && FirstDefect(raws, i) && ParseClaim(raws[i]) == Failure(code)
  }

  /** Index `i` holds the first claim that does not parse. */
  predicate FirstDefect(raws: seq<RawClaim>, i: nat)
    requires i < |raws|
  {
    ParseClaim(raws[i]).Failure? && forall j :: 0 <= j < i ==> ParseClaim(raws[j]).Success?
  }

  function Parse(raws: seq<RawClaim>): Result<seq<Claim>, ReasonCode> {
    if raws == [] then Success([])
    else
      match ParseClaim(raws[0])
      case Failure(code) => Failure(code)
      case Success(claim) =>
        match Parse(raws[1..])
        case Failure(code) => Failure(code)
        case Success(claims) => Success([claim] + claims)
  }

  /** Parsing is all or nothing: every claim parses, in order, or the least bad index decides the code. */
  lemma {:induction false} ParseMeaning(raws: seq<RawClaim>)
    ensures Parses(raws, Parse(raws))
    ensures Parse(raws).Success? <==> WellFormed(raws)
  {
    if raws != [] {
      var tail := raws[1..];
      ParseMeaning(tail);
      assert raws == [raws[0]] + tail;
      if ParseClaim(raws[0]).Failure? {
        assert FirstDefect(raws, 0);
      } else if Parse(tail).Failure? {
        var i :| 0 <= i < |tail| && FirstDefect(tail, i) && ParseClaim(tail[i]) == Failure(Parse(tail).error);
        assert forall j :: 0 < j < |raws| ==> raws[j] == tail[j - 1];
        assert FirstDefect(raws, i + 1) && ParseClaim(raws[i + 1]) == Failure(Parse(tail).error);
      }
    }
  }

  /** At most one result fits a response. */
  lemma {:induction false} ParseUnique(raws: seq<RawClaim>, result: Result<seq<Claim>, ReasonCode>)
    requires Parses(raws, result)
    ensures result == Parse(raws)
  {
    ParseMeaning(raws);
    if result.Failure? {
      var i :| 0 <= i < |raws| && FirstDefect(raws, i) && ParseClaim(raws[i]) == Failure(result.error);
      assert raws[i] in raws;
      assert Parse(raws).Failure?;
      var j :| 0 <= j < |raws| && FirstDefect(raws, j) && ParseClaim(raws[j]) == Failure(Parse(raws).error);
      assert i == j;
    } else {
      assert forall raw <- raws :: ParseClaim(raw).Success?;
      var claims := Parse(raws).value;
      forall i | 0 <= i < |raws| ensures result.value[i] == claims[i] {
        assert ParseClaim(raws[i]) == Success(claims[i]) && ParseClaim(raws[i]) == Success(result.value[i]);
      }
      assert result.value == claims;
    }
  }

  /** Parses claims one at a time, stopping at the first that is defective. */
  method ParseClaims(raws: seq<RawClaim>) returns (result: Result<seq<Claim>, ReasonCode>)
    ensures Parses(raws, result)
    ensures result == Parse(raws)
  {
    var parsed: seq<Claim> := [];
    for index := 0 to |raws|
      invariant |parsed| == index
      invariant forall i :: 0 <= i < index ==> ParseClaim(raws[i]) == Success(parsed[i])
    {
      var raw := raws[index];
      if raw.NotAMapping? {
        result := Failure(MALFORMED_VERIFIER_OUTPUT);
      } else if VerdictMissing(raw.verdict) {
        result := Failure(MISSING_CLAIM_VERDICT);
      } else {
        var verdict := VerdictOf(raw.verdict);
        if verdict.None? {
          result := Failure(UNKNOWN_CLAIM_VERDICT);
        } else {
          var claim := BuildClaim(raw, verdict.value);
          if claim.Some? {
            parsed := parsed + [claim.value];
            continue;
          }
          result := Failure(MALFORMED_VERIFIER_OUTPUT);
        }
      }
      assert FirstDefect(raws, index);
      ParseUnique(raws, result);
      return;
    }
    result := Success(parsed);
    ParseUnique(raws, result);
  }

  /** The parsed claims are the claims of the raw ones. */
  lemma {:induction false} ParsedElements(raws: seq<RawClaim>, p: Claim -> bool)
    requires WellFormed(raws)
    ensures Parse(raws).Success?
    ensures (forall c <- Parse(raws).value :: p(c)) <==> forall raw <- raws :: p(ParseClaim(raw).value)
  {
    ParseMeaning(raws);
    if raws != [] {
      assert raws == [raws[0]] + raws[1..];
      ParsedElements(raws[1..], p);
    }
  }

  function OfParsed(p: Claim -> bool): RawClaim -> bool {
    (raw: RawClaim) => ParseClaim(raw).Success? && p(ParseClaim(raw).value)
  }

  lemma {:induction false} ParsedCount(raws: seq<RawClaim>, p: Claim -> bool)
    requires WellFormed(raws)
    ensures Parse(raws).Success?
    ensures Count(p, Parse(raws).value) == Count(OfParsed(p), raws)
  {
    ParseMeaning(raws);
    if raws != [] {
      assert raws == [raws[0]] + raws[1..];
      ParsedCount(raws[1..], p);
    }
  }

  lemma {:induction false} ParseConcat(xs: seq<RawClaim>, ys: seq<RawClaim>)
    requires WellFormed(xs) && WellFormed(ys)
    ensures Parse(xs).Success? && Parse(ys).Success?
    ensures Parse(xs + ys) == Success(Parse(xs).value + Parse(ys).value)
  {
    ParseMeaning(xs);
    ParseMeaning(ys);
    ParseUnique(xs + ys, Success(Parse(xs).value + Parse(ys).value));
  }
}
