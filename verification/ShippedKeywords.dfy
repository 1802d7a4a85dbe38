/** The shipped lexicon in terms of the text itself, and what the keyword verifier with it grounds. */
module ShippedKeywords {
  import opened Collections
  import opened Domain
  import opened DecisionFunction
  import opened Evidence
  import opened KeywordText
  import opened TextLaws
  import K = KeywordVerifier

  // ---- Words -----------------------------------------------------------------------------

  /** A word of a text: a stretch between white space, not empty. */
  ghost predicate WordIn(text: string, w: string) { w != "" && HasStretch(IsSpace, text, w) }

  ghost predicate BareOf(w: string, lower: string -> string, x: string) {
    exists core :: Core(IsPunctuation, w, core) && x == lower(core)
  }

  /** The words that signify nothing: articles, forms of "be", prepositions, conjunctions, pronouns, auxiliaries. */
  predicate StopWord(x: string) {
    || x == "a" || x == "an" || x == "the"
    || x == "is" || x == "are" || x == "was" || x == "were" || x == "be" || x == "been" || x == "being"
    || x == "of" || x == "to" || x == "in" || x == "for" || x == "on" || x == "at" || x == "by" || x == "with"
    || x == "from" || x == "as"
    || x == "and" || x == "or" || x == "not"
    || x == "that" || x == "this" || x == "these" || x == "those" || x == "it" || x == "its"
    || x == "must" || x == "should" || x == "may" || x == "can" || x == "will" || x == "shall"
  }

  lemma StopWordsListed(x: string)
    ensures x in STOPWORDS <==> StopWord(x)
  {
  }

  /** A significant word of a text: what a word longer than two characters is, stripped of punctuation at its ends
      and lowered, unless that is a stop word. */
  ghost predicate SignificantWord(text: string, lower: string -> string, x: string) {
    !StopWord(x) && exists w :: WordIn(text, w) && |w| > 2 && BareOf(w, lower, x)
  }

  lemma {:induction false} WordsIff(text: string, w: string)
    ensures w in Words(text) <==> WordIn(text, w)
  {
    PieceIff(IsSpace, text, w);
    FilterKeeps(NotEmpty, Split(IsSpace, text));
  }

  lemma {:induction false} BareIff(w: string, lower: string -> string, x: string)
    ensures x == Bare(w, lower) <==> BareOf(w, lower, x)
  {
    StripIsCore(IsPunctuation, w);
    if core :| Core(IsPunctuation, w, core) && x == lower(core) { CoreIsStrip(IsPunctuation, w, core); }
  }

  /** These are the significant words, and there are no others. */
  lemma {:induction false} SignificantIff(text: string, lower: string -> string, x: string)
    ensures x in Significant(text, lower) <==> SignificantWord(text, lower, x)
  {
    StopWordsListed(x);
    if x in Significant(text, lower) {
      var w :| w in Words(text) && |w| > 2 && Bare(w, lower) !in STOPWORDS && x == Bare(w, lower);
      WordsIff(text, w);
      BareIff(w, lower, x);
    }
    if SignificantWord(text, lower, x) {
      var w :| WordIn(text, w) && |w| > 2 && BareOf(w, lower, x);
      WordsIff(text, w);
      BareIff(w, lower, x);
    }
  }

  /** Letters and digits belong to words; blanks end them and full stops end sentences. */
  lemma CharactersSorted(c: char)
    ensures 'a' <= c <= 'z' || 'A' <= c <= 'Z' || '0' <= c <= '9' ==> !IsSpace(c) && !IsPunctuation(c) && !IsFullStop(c)
    ensures c == ' ' || c == '\t' || c == '\n' || c == '\r' ==> IsSpace(c)
    ensures IsFullStop(c) <==> c == '.'
    ensures c == '.' || c == ',' || c == ';' || c == ':' || c == '(' || c == ')' || c == '"' || c == '\''
            <==> IsPunctuation(c)
  {
  }

  // ---- Sentences -------------------------------------------------------------------------

  /** A text with blanks for its line breaks. */
  predicate Spaced(answer: string, spaced: string) {
    |spaced| == |answer| && forall i :: 0 <= i < |answer| ==> spaced[i] == if answer[i] == '\n' then ' ' else answer[i]
  }

  /** One sentence for each piece that is not blank, in order: the piece without the blanks around it. */
  ghost predicate SentencesOf(pieces: seq<string>, sentences: seq<string>) {
    if pieces == [] then sentences == []
    else if All(IsSpace, pieces[0]) then SentencesOf(pieces[1..], sentences)
    else sentences != [] && Core(IsSpace, pieces[0], sentences[0]) && SentencesOf(pieces[1..], sentences[1..])
  }

  /** An answer reads as some sentences: they are those of its stretches between full stops. */
  ghost predicate ReadsAs(answer: string, sentences: seq<string>) {
    exists pieces, stops :: Laid(answer, pieces, stops) && SentencesOf(pieces, sentences)
  }

  predicate Laid(answer: string, pieces: seq<string>, stops: string) {
    Apart(IsFullStop, pieces, stops) && Spaced(answer, Interleave(pieces, stops))
  }

  lemma {:induction false} BlankIff(s: string)
    ensures Strip(IsSpace, s) == "" <==> All(IsSpace, s)
  {
    StripIsCore(IsSpace, s);
    if All(IsSpace, s) {
      assert Around(s, "", "") == s;
      CoreIsStrip(IsSpace, s, "");
    }
  }

  function NonBlank(pieces: seq<string>): seq<string> { Filter(NotEmpty, StripAll(pieces)) }

  lemma {:induction false} NonBlankUnfolds(pieces: seq<string>)
    requires pieces != []
    ensures NonBlank(pieces)
         == (if All(IsSpace, pieces[0]) then [] else [Strip(IsSpace, pieces[0])]) + NonBlank(pieces[1..])
  {
    BlankIff(pieces[0]);
    assert StripAll(pieces)[1..] == StripAll(pieces[1..]);
  }

  lemma {:induction false} NonBlankIsSentences(pieces: seq<string>)
    ensures SentencesOf(pieces, NonBlank(pieces))
  {
    if pieces != [] {
      NonBlankUnfolds(pieces);
      NonBlankIsSentences(pieces[1..]);
      StripIsCore(IsSpace, pieces[0]);
      if All(IsSpace, pieces[0]) {
        assert NonBlank(pieces) == NonBlank(pieces[1..]);
      } else {
        assert NonBlank(pieces)[0] == Strip(IsSpace, pieces[0]) && NonBlank(pieces)[1..] == NonBlank(pieces[1..]);
      }
    }
  }

  lemma {:induction false} SentencesAreNonBlank(pieces: seq<string>, sentences: seq<string>)
    requires SentencesOf(pieces, sentences)
    ensures sentences == NonBlank(pieces)
    decreases |pieces|
  {
    if pieces != [] {
      NonBlankUnfolds(pieces);
      if All(IsSpace, pieces[0]) {
        SentencesAreNonBlank(pieces[1..], sentences);
      } else {
        CoreIsStrip(IsSpace, pieces[0], sentences[0]);
        SentencesAreNonBlank(pieces[1..], sentences[1..]);
        assert sentences == [sentences[0]] + sentences[1..];
      }
    }
  }

  lemma {:induction false} SentencesOfIff(pieces: seq<string>, sentences: seq<string>)
    ensures SentencesOf(pieces, sentences) <==> sentences == NonBlank(pieces)
  {
    NonBlankIsSentences(pieces);
    if SentencesOf(pieces, sentences) { SentencesAreNonBlank(pieces, sentences); }
  }

  /** The sentences of an answer are what it reads as, and it reads in no other way. */
  lemma {:induction false} SentencesIff(answer: string, sentences: seq<string>)
    ensures sentences == Sentences(answer) <==> ReadsAs(answer, sentences)
  {
    var spaced := LineBreaksToSpaces(answer);
    var stops := SplitRejoins(IsFullStop, spaced);
    assert Laid(answer, Split(IsFullStop, spaced), stops);
    SentencesOfIff(Split(IsFullStop, spaced), sentences);
    if ReadsAs(answer, sentences) {
      var pieces, s :| Laid(answer, pieces, s) && SentencesOf(pieces, sentences);
      assert Interleave(pieces, s) == spaced;
      SplitUnique(IsFullStop, pieces, s);
    }
  }

  // ---- What is grounded ------------------------------------------------------------------

  ghost predicate Occurs(part: string, text: string) { exists a, b :: Around(a, part, b) == text }

  /** An item entails a sentence when the sentence has significant words and each occurs in the lowered item. */
  ghost predicate Entails(item: EvidenceItem, sentence: string, lower: string -> string) {
    && (exists x :: SignificantWord(sentence, lower, x))
    && forall x :: SignificantWord(sentence, lower, x) ==> Occurs(x, lower(item.text))
  }

  ghost predicate Overlaps(question: string, sentence: string, lower: string -> string) {
    exists x :: SignificantWord(question, lower, x) && SignificantWord(sentence, lower, x)
  }

  /** A sentence states a limitation when one of four phrases occurs in it, lowered. */
  ghost predicate Limits(sentence: string, lower: string -> string) {
    || Occurs("does not cover", lower(sentence)) || Occurs("outside the scope", lower(sentence))
    || Occurs("not addressed", lower(sentence)) || Occurs("no guidance", lower(sentence))
  }

  ghost predicate MayStand(
      sentences: seq<string>, items: seq<EvidenceItem>, question: string, lower: string -> string)
  {
    && sentences != []
    && (forall s <- sentences :: exists item <- items :: Entails(item, s, lower))
    && (exists s <- sentences :: Overlaps(question, s, lower))
  }

  lemma {:induction false} EntailsUnfolded(item: EvidenceItem, sentence: string, lower: string -> string)
    ensures K.Entails(item, sentence, ShippedLexicon(lower))
            <==> Significant(sentence, lower) != {}
                 && forall w <- Significant(sentence, lower) :: Contains(lower(item.text), w)
  {
  }

  lemma {:induction false} WordsGiveEntails(
      words: set<string>, item: EvidenceItem, sentence: string, lower: string -> string)
    requires forall x: string :: x in words <==> SignificantWord(sentence, lower, x)
    requires words != {} && forall w <- words :: Contains(lower(item.text), w)
    ensures Entails(item, sentence, lower)
  {
    var x :| x in words;
    assert SignificantWord(sentence, lower, x);
    forall x: string | SignificantWord(sentence, lower, x) ensures Occurs(x, lower(item.text)) {
      assert x in words;
      ContainsIff(lower(item.text), x);
    }
  }

  lemma {:induction false} EntailsGivesWords(
      words: set<string>, item: EvidenceItem, sentence: string, lower: string -> string)
    requires forall x: string :: x in words <==> SignificantWord(sentence, lower, x)
    requires Entails(item, sentence, lower)
    ensures words != {} && forall w <- words :: Contains(lower(item.text), w)
  {
    var x: string :| SignificantWord(sentence, lower, x);
    assert x in words;
    forall w <- words ensures Contains(lower(item.text), w) {
      assert SignificantWord(sentence, lower, w);
      ContainsIff(lower(item.text), w);
    }
  }

  lemma {:induction false} EntailsIff(item: EvidenceItem, sentence: string, lower: string -> string)
    ensures K.Entails(item, sentence, ShippedLexicon(lower)) <==> Entails(item, sentence, lower)
  {
    var words := Significant(sentence, lower);
    EntailsUnfolded(item, sentence, lower);
    forall x: string ensures x in words <==> SignificantWord(sentence, lower, x) { SignificantIff(sentence, lower, x); }
    if K.Entails(item, sentence, ShippedLexicon(lower)) { WordsGiveEntails(words, item, sentence, lower); }
    if Entails(item, sentence, lower) { EntailsGivesWords(words, item, sentence, lower); }
  }

  lemma {:induction false} SharedGivesOverlap(
      asked: set<string>, said: set<string>, question: string, sentence: string, lower: string -> string)
    requires forall x: string :: x in asked <==> SignificantWord(question, lower, x)
    requires forall x: string :: x in said <==> SignificantWord(sentence, lower, x)
    requires asked * said != {}
    ensures Overlaps(question, sentence, lower)
  {
    var x :| x in asked * said;
    assert SignificantWord(question, lower, x) && SignificantWord(sentence, lower, x);
  }

  lemma {:induction false} OverlapGivesShared(
      asked: set<string>, said: set<string>, question: string, sentence: string, lower: string -> string)
    requires forall x: string :: x in asked <==> SignificantWord(question, lower, x)
    requires forall x: string :: x in said <==> SignificantWord(sentence, lower, x)
    requires Overlaps(question, sentence, lower)
    ensures asked * said != {}
  {
    var x: string :| SignificantWord(question, lower, x) && SignificantWord(sentence, lower, x);
    SharedWord(asked, said, x);
  }

  lemma SharedWord(asked: set<string>, said: set<string>, x: string)
    requires x in asked && x in said
    ensures asked * said != {}
  {
    assert x in asked * said;
  }

  lemma {:induction false} OverlapsUnfolded(question: string, sentence: string, lower: string -> string)
    ensures K.Overlaps(question, sentence, ShippedLexicon(lower))
            <==> Significant(question, lower) * Significant(sentence, lower) != {}
  {
  }

  lemma {:induction false} OverlapsIff(question: string, sentence: string, lower: string -> string)
    ensures K.Overlaps(question, sentence, ShippedLexicon(lower)) <==> Overlaps(question, sentence, lower)
  {
    var asked, said := Significant(question, lower), Significant(sentence, lower);
    OverlapsUnfolded(question, sentence, lower);
    forall x: string ensures x in asked <==> SignificantWord(question, lower, x) { SignificantIff(question, lower, x); }
    forall x: string ensures x in said <==> SignificantWord(sentence, lower, x) { SignificantIff(sentence, lower, x); }
    if asked * said != {} { SharedGivesOverlap(asked, said, question, sentence, lower); }
    if Overlaps(question, sentence, lower) { OverlapGivesShared(asked, said, question, sentence, lower); }
  }

  lemma {:induction false} LimitsIff(sentence: string, lower: string -> string)
    ensures StatesScope(sentence, lower) <==> Limits(sentence, lower)
  {
    var text := lower(sentence);
    ContainsIff(text, SCOPE_MARKERS[0]);
    ContainsIff(text, SCOPE_MARKERS[1]);
    ContainsIff(text, SCOPE_MARKERS[2]);
    ContainsIff(text, SCOPE_MARKERS[3]);
    assert forall i :: 0 <= i < 4 ==> SCOPE_MARKERS[i] in SCOPE_MARKERS;
  }

  lemma {:induction false} MayStandIff(
      sentences: seq<string>, items: seq<EvidenceItem>, question: string, lower: string -> string)
    ensures K.KeywordGrounded(sentences, items, question, ShippedLexicon(lower))
            <==> MayStand(sentences, items, question, lower)
  {
    var lexicon := ShippedLexicon(lower);
    forall s <- sentences
      ensures K.Entailed(items, s, lexicon) <==> exists item <- items :: Entails(item, s, lower)
      ensures K.Overlaps(question, s, lexicon) <==> Overlaps(question, s, lower)
    {
      forall item <- items ensures K.Entails(item, s, lexicon) <==> Entails(item, s, lower) {
        EntailsIff(item, s, lower);
      }
      OverlapsIff(question, s, lower);
    }
    assert forall i :: 0 <= i < |sentences| ==> sentences[i] in sentences;
  }

  lemma {:induction false} StrategyIff(sentences: seq<string>, lower: string -> string)
    ensures K.KeywordStrategy(sentences, ShippedLexicon(lower)) == BOUNDED <==>
              exists s <- sentences :: Limits(s, lower)
  {
    forall i | 0 <= i < |sentences|
      ensures sentences[i] in sentences
      ensures ShippedLexicon(lower).statesScope(sentences[i]) <==> Limits(sentences[i], lower)
    {
      LimitsIff(sentences[i], lower);
    }
  }

  lemma ShippedSentences(answer: string, lower: string -> string, sentences: seq<string>)
    requires ReadsAs(answer, sentences)
    ensures ShippedLexicon(lower).sentences(answer) == sentences
  {
    SentencesIff(answer, sentences);
  }

  /** The keyword verifier as shipped, decided: an answer is grounded if and only if it reads as some sentences, each
      of them is entailed by a single item, and one of them shares a significant word with the question; it is then
      bounded if and only if one of them states a limitation. */
  lemma {:induction false} ShippedKeywordExactly(
      name: string, latencyMs: nat, lower: string -> string, answer: string, evidence: EvidenceSet, question: string,
      sentences: seq<string>)
    requires Identified(evidence.items) && ReadsAs(answer, sentences)
    ensures var d := Decide(K.Response(name, latencyMs, ShippedLexicon(lower), answer, evidence, question));
            && (d.outcome.GROUNDED? <==> MayStand(sentences, evidence.items, question, lower))
            && (d.outcome.GROUNDED? ==> (d.strategy == Some(BOUNDED) <==> exists s <- sentences :: Limits(s, lower)))
  {
    var d := Decide(K.Response(name, latencyMs, ShippedLexicon(lower), answer, evidence, question));
    ShippedLexiconHasNoBlankSentences(lower);
    K.KeywordSoundAndComplete(name, latencyMs, ShippedLexicon(lower), answer, evidence, question);
    ShippedSentences(answer, lower, sentences);
    MayStandIff(sentences, evidence.items, question, lower);
    StrategyIff(sentences, lower);
  }
}
