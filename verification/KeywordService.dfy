/** The governed path with the keyword verifier: what a grounded answer rests on, end to end. */
module KeywordService {
  import opened Collections
  import opened DecisionFunction
  import opened Evidence
  import opened ServiceModel
  import opened ServiceRuns
  import opened DecisionAnswers
  import opened ServiceAnswers
  import opened KeywordText
  import K = KeywordVerifier

  /** The service's verifier is the keyword verifier over a lexicon. */
  ghost predicate VerifiesByKeyword<S(!new)>(w: Wiring<S>, name: string, latencyMs: nat, lexicon: Lexicon) {
    forall world: S, answer: string, window: EvidenceSet, question: string ::
      w.verify(world, answer, window, question)
        == (world, Responded(K.Response(name, latencyMs, lexicon, answer, window, question)))
  }

  /** The answer the generator gives a permitted request. */
  function AnswerTo<S>(w: Wiring<S>, world: S, req: TrustRequest, e: EvidenceSet): string
    requires Governed(w, req)
  {
    w.generate(world, req.question, WindowFor(w, req, e)).1
  }

  /** A request is answered exactly when it is permitted and, on the window the gate measured, every sentence of
      the generated answer is entailed by a single item and some sentence bears on the question; and then every
      item of that window has permitted provenance. */
  lemma {:induction false} KeywordAnswersExactly<S(!new)>(
      w: Wiring<S>, name: string, latencyMs: nat, lexicon: Lexicon, world: S, req: TrustRequest, e: EvidenceSet)
    requires ValidRegistry(w.registry) && VerifiesByKeyword(w, name, latencyMs, lexicon)
    requires NoBlankSentences(lexicon) && Identified(e.items)
    ensures var d := Judge(w, world, req, e).decision;
            && (d.outcome.GROUNDED? <==>
                  && Permits(w, req, e)
                  && K.KeywordGrounded(lexicon.sentences(AnswerTo(w, world, req, e)), WindowFor(w, req, e).items,
                                       req.question, lexicon))
            && (d.outcome.GROUNDED? ==> Permitted(WindowFor(w, req, e).items, w.registry[KeyOf(req)].provenance))
  {
    GroundedExactly(w, world, req, e);
    if Permits(w, req, e) {
      var window := WindowFor(w, req, e);
      var (written, answer) := w.generate(world, req.question, window);
      var provenance := w.registry[KeyOf(req)].provenance;
      assert w.verify(written, answer, window, req.question)
        == (written, Responded(K.Response(name, latencyMs, lexicon, answer, window, req.question)));
      WindowPermitted(e, provenance, w.registry[KeyOf(req)].gate.topK);
      assert Identified(window.items);
      K.KeywordSoundAndComplete(name, latencyMs, lexicon, answer, window, req.question);
      GroundedIffWarranted(K.Response(name, latencyMs, lexicon, answer, window, req.question));
    }
  }

  /** How a permitted request is answered with the keyword verifier: bounded exactly when some sentence states a
      limitation, and refused for the first thing the answer lacks. */
  lemma {:induction false} KeywordAnswers<S(!new)>(
      w: Wiring<S>, name: string, latencyMs: nat, lexicon: Lexicon, world: S, req: TrustRequest, e: EvidenceSet)
    requires ValidRegistry(w.registry) && VerifiesByKeyword(w, name, latencyMs, lexicon)
    requires NoBlankSentences(lexicon) && Identified(e.items) && Permits(w, req, e)
    ensures var d, sentences := Judge(w, world, req, e).decision, lexicon.sentences(AnswerTo(w, world, req, e));
            && d.mechanism == name && d.latencyMs == latencyMs
            && d.reasonCode == K.RefusalCode(sentences, WindowFor(w, req, e).items, req.question, lexicon)
            && (d.outcome.GROUNDED? ==> d.strategy == Some(K.KeywordStrategy(sentences, lexicon)))
  {
    var window := WindowFor(w, req, e);
    var (written, answer) := w.generate(world, req.question, window);
    var r := K.Response(name, latencyMs, lexicon, answer, window, req.question);
    WindowPermitted(e, w.registry[KeyOf(req)].provenance, w.registry[KeyOf(req)].gate.topK);
    assert Identified(window.items);
    assert w.verify(written, answer, window, req.question) == (written, Responded(r));
    AnsweredExactly(w, world, req, e);
    DecisionUnique(r, Judge(w, world, req, e).decision);
    K.KeywordRefusals(name, latencyMs, lexicon, answer, window, req.question);
    K.KeywordSoundAndComplete(name, latencyMs, lexicon, answer, window, req.question);
  }
}
