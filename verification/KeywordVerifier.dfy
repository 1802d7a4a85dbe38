/** The keyword verifier, and what it means for its output to be grounded by the decision function. */
module KeywordVerifier {
  import opened Collections
  import opened Domain
  import opened Claims
  import opened DecisionFunction
  import opened DecisionAnswers
  import opened Evidence
  import opened KeywordText

  /** An item entails a sentence when the sentence has significant words and the item's text has them all. */
  predicate Entails(item: EvidenceItem, sentence: string, lexicon: Lexicon) {
    var words := lexicon.significant(sentence);
    words != {} && forall w <- words :: lexicon.hasWord(item.text, w)
  }

  predicate Entailed(items: seq<EvidenceItem>, sentence: string, lexicon: Lexicon) {
    exists item <- items :: Entails(item, sentence, lexicon)
  }

  predicate Overlaps(question: string, sentence: string, lexicon: Lexicon) {
    lexicon.significant(question) * lexicon.significant(sentence) != {}
  }

  /** The citation for a sentence: the identifier of the first item that entails it. */
  ghost predicate Cites(items: seq<EvidenceItem>, sentence: string, lexicon: Lexicon, ref: Option<string>) {
    match ref
    case None => !Entailed(items, sentence, lexicon)
    case Some(id) =>
      exists i :: 0 <= i < |items| && items[i].evidenceId == id && FirstEntailing(items, sentence, lexicon, i)
  }

  predicate FirstEntailing(items: seq<EvidenceItem>, sentence: string, lexicon: Lexicon, i: nat)
    requires i < |items|
  {
    Entails(items[i], sentence, lexicon) && forall j :: 0 <= j < i ==> !Entails(items[j], sentence, lexicon)
  }

  function EntailingRef(items: seq<EvidenceItem>, sentence: string, lexicon: Lexicon): (ref: Option<string>)
    ensures Cites(items, sentence, lexicon, ref)
  {
    if items == [] then None
    else if Entails(items[0], sentence, lexicon) then
      assert FirstEntailing(items, sentence, lexicon, 0);
      Some(items[0].evidenceId)
    else
      var ref := EntailingRef(items[1..], sentence, lexicon);
      assert Cites(items, sentence, lexicon, ref) by { CitesLater(items, sentence, lexicon, ref); }
      ref
  }

  lemma {:induction false} CitesLater(items: seq<EvidenceItem>, sentence: string, lexicon: Lexicon, ref: Option<string>)
    requires items != [] && !Entails(items[0], sentence, lexicon) && Cites(items[1..], sentence, lexicon, ref)
    ensures Cites(items, sentence, lexicon, ref)
  {
    var tail := items[1..];
    assert forall i :: 0 < i < |items| ==> items[i] == tail[i - 1];
    if ref.Some? {
      var i :| 0 <= i < |tail| && tail[i].evidenceId == ref.value && FirstEntailing(tail, sentence, lexicon, i);
      assert FirstEntailing(items, sentence, lexicon, i + 1) && items[i + 1].evidenceId == ref.value;
    } else {
      forall item <- items ensures !Entails(item, sentence, lexicon) {
        assert items == [items[0]] + tail;
      }
    }
  }

  /** Searches the evidence for an item holding every significant word of the sentence. */
  method EntailingEvidence(items: seq<EvidenceItem>, sentence: string, lexicon: Lexicon) returns (ref: Option<string>)
    ensures Cites(items, sentence, lexicon, ref)
    ensures ref == EntailingRef(items, sentence, lexicon)
  {
    var words := lexicon.significant(sentence);
    ref := None;
    if words == {} {
      NoneEntail(items, sentence, lexicon);
      return;
    }
    for i := 0 to |items|
      invariant forall j :: 0 <= j < i ==> !Entails(items[j], sentence, lexicon)
      invariant EntailingRef(items[i..], sentence, lexicon) == EntailingRef(items, sentence, lexicon)
    {
      assert items[i..][0] == items[i] && items[i..][1..] == items[i + 1..];
      if Entails(items[i], sentence, lexicon) {
        assert FirstEntailing(items, sentence, lexicon, i);
        return Some(items[i].evidenceId);
      }
    }
    assert items[|items|..] == [];
  }

  lemma {:induction false} NoneEntail(items: seq<EvidenceItem>, sentence: string, lexicon: Lexicon)
    requires lexicon.significant(sentence) == {}
    ensures EntailingRef(items, sentence, lexicon) == None
  {
    if items != [] { NoneEntail(items[1..], sentence, lexicon); }
  }

  function ClaimFor(items: seq<EvidenceItem>, sentence: string, lexicon: Lexicon): RawClaim {
    var ref := EntailingRef(items, sentence, lexicon);
    Mapping(VerdictText(VerdictName(if Named(ref) then SUPPORTED else UNSUPPORTED)), sentence,
            if ref.Some? then RefText(ref.value) else NoRef, lexicon.statesScope(sentence))
  }

  /** Claims go one to one with sentences. */
  predicate ClaimsFor(claims: seq<RawClaim>, items: seq<EvidenceItem>, sentences: seq<string>, lexicon: Lexicon) {
    |claims| == |sentences| && forall i :: 0 <= i < |sentences| ==> claims[i] == ClaimFor(items, sentences[i], lexicon)
  }

  /** Some supported sentence shares a significant word with the question. */
  predicate AnswersQuestion(claims: seq<RawClaim>, question: string, lexicon: Lexicon) {
    exists c <- claims :: c.Mapping? && c.verdict == VerdictText("SUPPORTED") && Overlaps(question, c.text, lexicon)
  }

  function AllClaims(items: seq<EvidenceItem>, sentences: seq<string>, lexicon: Lexicon): (claims: seq<RawClaim>)
    ensures ClaimsFor(claims, items, sentences, lexicon)
  {
    seq(|sentences|, i requires 0 <= i < |sentences| => ClaimFor(items, sentences[i], lexicon))
  }

  lemma {:induction false} ClaimsUnique(
      claims: seq<RawClaim>, items: seq<EvidenceItem>, sentences: seq<string>, lexicon: Lexicon)
    requires ClaimsFor(claims, items, sentences, lexicon)
    ensures claims == AllClaims(items, sentences, lexicon)
  {
  }

  /** The verifier's response: one claim a sentence, never truncated. */
  function Response(
      name: string, latencyMs: nat, lexicon: Lexicon, answer: string, evidence: EvidenceSet, question: string)
    : (r: VerifierResponse)
    ensures r.mechanism == name && r.latencyMs == latencyMs && !r.truncated
  {
    var sentences := lexicon.sentences(answer);
    var claims := AllClaims(evidence.items, sentences, lexicon);
    VerifierResponse(name, claims, Some(AnswersQuestion(claims, question, lexicon)), false, latencyMs)
  }

  /** Builds the claims sentence by sentence. */
  method Verify(name: string, latencyMs: nat, lexicon: Lexicon, answer: string, evidence: EvidenceSet, question: string)
    returns (response: VerifierResponse)
    ensures response == Response(name, latencyMs, lexicon, answer, evidence, question)
  {
    var sentences := lexicon.sentences(answer);
    var claims: seq<RawClaim> := [];
    for i := 0 to |sentences|
      invariant ClaimsFor(claims, evidence.items, sentences[..i], lexicon)
    {
      var sentence := sentences[i];
      var ref := EntailingEvidence(evidence.items, sentence, lexicon);
      claims := claims + [Mapping(VerdictText(if Named(ref) then "SUPPORTED" else "UNSUPPORTED"), sentence,
                                  if ref.Some? then RefText(ref.value) else NoRef, lexicon.statesScope(sentence))];
      assert sentences[..i + 1] == sentences[..i] + [sentence];
    }
    assert sentences[..|sentences|] == sentences;
    ClaimsUnique(claims, evidence.items, sentences, lexicon);
    response := VerifierResponse(name, claims, Some(AnswersQuestion(claims, question, lexicon)), false, latencyMs);
  }

  /** The claim made of a sentence: supported exactly when some item entails it, and then citing such an item. */
  ghost predicate ClaimFacts(items: seq<EvidenceItem>, sentence: string, lexicon: Lexicon, claim: Claim) {
    && claim.text == sentence
    && claim.statesScopeLimitation == lexicon.statesScope(sentence)
    && !claim.verdict.CONTRADICTED?
    && (claim.verdict.SUPPORTED? <==> Entailed(items, sentence, lexicon))
    && (claim.verdict.SUPPORTED? <==> claim.evidenceRef.Some?)
    && (claim.evidenceRef.Some? ==>
          exists item <- items :: item.evidenceId == claim.evidenceRef.value && Entails(item, sentence, lexicon))
  }

  lemma {:induction false} ClaimParses(items: seq<EvidenceItem>, sentence: string, lexicon: Lexicon)
    requires Identified(items) && sentence != ""
    ensures ParseClaim(ClaimFor(items, sentence, lexicon)).Success?
    ensures ClaimFacts(items, sentence, lexicon, ParseClaim(ClaimFor(items, sentence, lexicon)).value)
  {
    RefNamed(items, sentence, lexicon);
  }

  /** Parsing never fails on what the keyword verifier produces, and every citation is a supplied item that
      entails the sentence it is cited for. */
  lemma {:induction false} KeywordOutputParses(
      r: VerifierResponse, items: seq<EvidenceItem>, sentences: seq<string>, lexicon: Lexicon)
    requires Identified(items) && (forall i :: 0 <= i < |sentences| ==> sentences[i] != "")
               && ClaimsFor(r.claims, items, sentences, lexicon)
    ensures WellFormed(r.claims) && Parse(r.claims).Success?
    ensures var claims := Parse(r.claims).value;
            && |claims| == |sentences|
            && forall i :: 0 <= i < |claims| ==> ClaimFacts(items, sentences[i], lexicon, claims[i])
  {
    forall i | 0 <= i < |sentences| ensures ParseClaim(r.claims[i]).Success? {
      ClaimParses(items, sentences[i], lexicon);
    }
    ParseMeaning(r.claims);
    forall i | 0 <= i < |sentences|
      ensures ClaimFacts(items, sentences[i], lexicon, Parse(r.claims).value[i])
    {
      ClaimParses(items, sentences[i], lexicon);
      assert ParseClaim(r.claims[i]) == Success(Parse(r.claims).value[i]);
    }
  }

  /** Relevance is decided by the supported sentences. */
  lemma {:induction false} RelevanceMeaning(
      claims: seq<RawClaim>, items: seq<EvidenceItem>, sentences: seq<string>, question: string, lexicon: Lexicon)
    requires Identified(items) && ClaimsFor(claims, items, sentences, lexicon)
    ensures AnswersQuestion(claims, question, lexicon)
            <==> exists i :: 0 <= i < |sentences|
                          && Entailed(items, sentences[i], lexicon) && Overlaps(question, sentences[i], lexicon)
  {
    forall i | 0 <= i < |sentences|
      ensures claims[i] in claims && claims[i].Mapping? && claims[i].text == sentences[i]
      ensures claims[i].verdict == VerdictText("SUPPORTED") <==> Entailed(items, sentences[i], lexicon)
    {
      RefNamed(items, sentences[i], lexicon);
    }
  }

  lemma {:induction false} RefNamed(items: seq<EvidenceItem>, sentence: string, lexicon: Lexicon)
    requires Identified(items)
    ensures Named(EntailingRef(items, sentence, lexicon)) <==> Entailed(items, sentence, lexicon)
    ensures EntailingRef(items, sentence, lexicon).Some? ==>
              exists item <- items :: item.evidenceId == EntailingRef(items, sentence, lexicon).value
                && Entails(item, sentence, lexicon)
  {
    var ref := EntailingRef(items, sentence, lexicon);
    if ref.Some? {
      var i :| 0 <= i < |items| && items[i].evidenceId == ref.value && FirstEntailing(items, sentence, lexicon, i);
      assert items[i] in items;
    }
  }

  /** When a keyword-verified answer may stand: it says something, each sentence is entailed by a single item,
      and some sentence bears on the question. */
  ghost predicate KeywordGrounded(
      sentences: seq<string>, items: seq<EvidenceItem>, question: string, lexicon: Lexicon)
  {
    && sentences != []
    && (forall i :: 0 <= i < |sentences| ==> Entailed(items, sentences[i], lexicon))
    && (exists i :: 0 <= i < |sentences| && Overlaps(question, sentences[i], lexicon))
  }

  function KeywordStrategy(sentences: seq<string>, lexicon: Lexicon): ResponseStrategy {
    if exists i :: 0 <= i < |sentences| && lexicon.statesScope(sentences[i]) then BOUNDED else DIRECT
  }

  /** What the keyword verifier returns for an answer already split into sentences. */
  ghost predicate KeywordResponse(
      r: VerifierResponse, items: seq<EvidenceItem>, sentences: seq<string>, question: string, lexicon: Lexicon)
  {
    && !r.truncated
    && ClaimsFor(r.claims, items, sentences, lexicon)
    && r.answersQuestion == Some(AnswersQuestion(r.claims, question, lexicon))
  }

  lemma {:induction false} VerdictsAndScopes(
      r: VerifierResponse, items: seq<EvidenceItem>, sentences: seq<string>, lexicon: Lexicon)
    requires Identified(items) && (forall i :: 0 <= i < |sentences| ==> sentences[i] != "")
               && ClaimsFor(r.claims, items, sentences, lexicon)
    ensures WellFormed(r.claims) && Parse(r.claims).Success? && |Parse(r.claims).value| == |sentences|
    ensures forall i :: 0 <= i < |sentences| ==>
              && (Parse(r.claims).value[i].verdict.SUPPORTED? <==> Entailed(items, sentences[i], lexicon))
              && Parse(r.claims).value[i].statesScopeLimitation == lexicon.statesScope(sentences[i])
  {
    KeywordOutputParses(r, items, sentences, lexicon);
    forall i | 0 <= i < |sentences|
      ensures Parse(r.claims).value[i].verdict.SUPPORTED? <==> Entailed(items, sentences[i], lexicon)
      ensures Parse(r.claims).value[i].statesScopeLimitation == lexicon.statesScope(sentences[i])
    {
      assert ClaimFacts(items, sentences[i], lexicon, Parse(r.claims).value[i]);
    }
  }

  lemma {:induction false} KeywordOutcome(
      d: VerificationDecision, claims: seq<Claim>, answers: bool, items: seq<EvidenceItem>, sentences: seq<string>,
      question: string, lexicon: Lexicon)
    requires |claims| == |sentences|
    requires forall i :: 0 <= i < |sentences| ==>
               && (claims[i].verdict.SUPPORTED? <==> Entailed(items, sentences[i], lexicon))
               && claims[i].statesScopeLimitation == lexicon.statesScope(sentences[i])
    requires d.outcome.GROUNDED? <==>
               claims != [] && answers && forall i :: 0 <= i < |claims| ==> claims[i].verdict.SUPPORTED?
    requires d.outcome.GROUNDED? ==>
               d.strategy
                 == Some(if exists i :: 0 <= i < |claims| && claims[i].statesScopeLimitation then BOUNDED else DIRECT)
    requires answers <==>
               exists i :: 0 <= i < |sentences| && Entailed(items, sentences[i], lexicon)
                 && Overlaps(question, sentences[i], lexicon)
    ensures d.outcome.GROUNDED? <==> KeywordGrounded(sentences, items, question, lexicon)
    ensures d.outcome.GROUNDED? ==> d.strategy == Some(KeywordStrategy(sentences, lexicon))
  {
    if forall i :: 0 <= i < |claims| ==> claims[i].verdict.SUPPORTED? {
      forall i | 0 <= i < |sentences| ensures Entailed(items, sentences[i], lexicon) {
        assert claims[i].verdict.SUPPORTED?;
      }
    }
  }

  lemma {:induction false} KeywordDecision(
      r: VerifierResponse, items: seq<EvidenceItem>, sentences: seq<string>, question: string, lexicon: Lexicon)
    requires Identified(items) && (forall i :: 0 <= i < |sentences| ==> sentences[i] != "")
    requires KeywordResponse(r, items, sentences, question, lexicon)
    ensures Decide(r).outcome.GROUNDED? <==> KeywordGrounded(sentences, items, question, lexicon)
    ensures Decide(r).outcome.GROUNDED? ==> Decide(r).strategy == Some(KeywordStrategy(sentences, lexicon))
  {
    VerdictsAndScopes(r, items, sentences, lexicon);
    RelevanceMeaning(r.claims, items, sentences, question, lexicon);
    GroundedOnClaims(r);
    KeywordOutcome(Decide(r), Parse(r.claims).value, AnswersQuestion(r.claims, question, lexicon), items, sentences,
                   question, lexicon);
  }

  /** End to end: deciding on the keyword verifier's output grounds exactly the answers that may stand, and
      whether they are bounded depends on their sentences alone. */
  lemma {:induction false} KeywordSoundAndComplete(
      name: string, latencyMs: nat, lexicon: Lexicon, answer: string, evidence: EvidenceSet, question: string)
    requires NoBlankSentences(lexicon) && Identified(evidence.items)
    ensures var d := Decide(Response(name, latencyMs, lexicon, answer, evidence, question));
            && (d.outcome.GROUNDED? <==> KeywordGrounded(lexicon.sentences(answer), evidence.items, question, lexicon))
            && (d.outcome.GROUNDED? ==> d.strategy == Some(KeywordStrategy(lexicon.sentences(answer), lexicon)))
  {
    var sentences := lexicon.sentences(answer);
    assert forall i :: 0 <= i < |sentences| ==> sentences[i] in sentences;
    KeywordDecision(Response(name, latencyMs, lexicon, answer, evidence, question), evidence.items, sentences, question,
                    lexicon);
  }

  /** Retrieving more evidence never turns a grounded answer into a refusal, and never changes how it is presented. */
  lemma {:induction false} MoreEvidenceNeverRefuses(
      name: string, latencyMs: nat, lexicon: Lexicon, answer: string, less: EvidenceSet, more: EvidenceSet,
      question: string)
    requires NoBlankSentences(lexicon) && Identified(less.items) && Identified(more.items)
    requires forall item <- less.items :: item in more.items
    ensures var before := Decide(Response(name, latencyMs, lexicon, answer, less, question));
            var after := Decide(Response(name, latencyMs, lexicon, answer, more, question));
            before.outcome.GROUNDED? ==> after.outcome.GROUNDED? && after.strategy == before.strategy
  {
    KeywordSoundAndComplete(name, latencyMs, lexicon, answer, less, question);
    KeywordSoundAndComplete(name, latencyMs, lexicon, answer, more, question);
  }

  // ---- Why an answer is refused ----------------------------------------------------------

  /** Why a keyword-verified answer may not stand, if it may not. */
  ghost function RefusalCode(
      sentences: seq<string>, items: seq<EvidenceItem>, question: string, lexicon: Lexicon): Option<ReasonCode>
  {
    if sentences == [] then Some(EMPTY_CLAIM_SET)
    else if forall s <- sentences :: !Entailed(items, s, lexicon) then Some(NO_SUPPORTED_CLAIMS)
    else if exists s <- sentences :: !Entailed(items, s, lexicon) then Some(UNSUPPORTED_CLAIM)
    else if forall s <- sentences :: !Overlaps(question, s, lexicon) then Some(DOES_NOT_ADDRESS_QUESTION)
    else None
  }

  lemma {:induction false} ClaimSupports(items: seq<EvidenceItem>, sentence: string, lexicon: Lexicon)
    requires Identified(items) && sentence != ""
    ensures ParseClaim(ClaimFor(items, sentence, lexicon)).Success?
    ensures Supports(ClaimFor(items, sentence, lexicon)) <==> Entailed(items, sentence, lexicon)
  {
    ClaimParses(items, sentence, lexicon);
    SupportsMeaning(ClaimFor(items, sentence, lexicon));
  }

  lemma {:induction false} SupportByEntailment(
      claims: seq<RawClaim>, items: seq<EvidenceItem>, sentences: seq<string>, lexicon: Lexicon)
    requires Identified(items) && (forall s <- sentences :: s != "") && ClaimsFor(claims, items, sentences, lexicon)
    ensures WellFormed(claims)
    ensures AllSupport(claims) <==> forall s <- sentences :: Entailed(items, s, lexicon)
    ensures NoneSupport(claims) <==> forall s <- sentences :: !Entailed(items, s, lexicon)
  {
    forall i | 0 <= i < |sentences|
      ensures ParseClaim(claims[i]).Success? && (Supports(claims[i]) <==> Entailed(items, sentences[i], lexicon))
    {
      assert sentences[i] in sentences;
      ClaimSupports(items, sentences[i], lexicon);
    }
    assert forall i :: 0 <= i < |sentences| ==> claims[i] in claims && sentences[i] in sentences;
  }

  /** Each refusal of a keyword-verified answer names the first thing it lacks. */
  lemma {:induction false} KeywordRefusals(
      name: string, latencyMs: nat, lexicon: Lexicon, answer: string, evidence: EvidenceSet, question: string)
    requires NoBlankSentences(lexicon) && Identified(evidence.items)
    ensures Decide(Response(name, latencyMs, lexicon, answer, evidence, question)).reasonCode
         == RefusalCode(lexicon.sentences(answer), evidence.items, question, lexicon)
  {
    var r, sentences := Response(name, latencyMs, lexicon, answer, evidence, question), lexicon.sentences(answer);
    var code := RefusalCode(sentences, evidence.items, question, lexicon);
    SupportByEntailment(r.claims, evidence.items, sentences, lexicon);
    RelevanceMeaning(r.claims, evidence.items, sentences, question, lexicon);
    CodeExplains(r, evidence.items, sentences, question, lexicon);
    DecisionExplained(r);
    OneExplanation(r, Decide(r).reasonCode, code);
  }

  lemma {:induction false} CodeExplains(
      r: VerifierResponse, items: seq<EvidenceItem>, sentences: seq<string>, question: string, lexicon: Lexicon)
    requires !r.truncated && WellFormed(r.claims) && |r.claims| == |sentences|
    requires AllSupport(r.claims) <==> forall s <- sentences :: Entailed(items, s, lexicon)
    requires NoneSupport(r.claims) <==> forall s <- sentences :: !Entailed(items, s, lexicon)
    requires r.answersQuestion
             == Some(exists i :: 0 <= i < |sentences| && Entailed(items, sentences[i], lexicon)
                                  && Overlaps(question, sentences[i], lexicon))
    ensures Explains(r, RefusalCode(sentences, items, question, lexicon))
  {
    assert forall i :: 0 <= i < |sentences| ==> sentences[i] in sentences;
  }
}
