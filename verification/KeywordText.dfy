/** The text operations the keyword verifier is built from. Case folding is a parameter. */
module KeywordText {
  import opened Collections

  /** The characters string stripping and splitting treat as white space. */
  predicate IsSpace(c: char) {
    || '\U{9}' <= c <= '\U{D}' || '\U{1C}' <= c <= '\U{20}' || c == '\U{85}' || c == '\U{A0}' || c == '\U{1680}'
    || '\U{2000}' <= c <= '\U{200A}' || c == '\U{2028}' || c == '\U{2029}' || c == '\U{202F}' || c == '\U{205F}'
    || c == '\U{3000}'
  }

  predicate IsFullStop(c: char) { c == '.' }

  predicate IsPunctuation(c: char) { c in ".,;:()\"'" }

  function StripLeft(p: char -> bool, s: string): string {
    if s != [] && p(s[0]) then StripLeft(p, s[1..]) else s
  }

  function StripRight(p: char -> bool, s: string): string {
    if s != [] && p(s[|s| - 1]) then StripRight(p, s[..|s| - 1]) else s
  }

  function Strip(p: char -> bool, s: string): string { StripRight(p, StripLeft(p, s)) }

  /** The pieces of `s` between separators, empty pieces included. */
  function Split(separates: char -> bool, s: string): (pieces: seq<string>)
    ensures pieces != []
  {
    if s == [] then [""]
    else
      var rest := Split(separates, s[1..]);
      if separates(s[0]) then [""] + rest else [[s[0]] + rest[0]] + rest[1..]
  }

  predicate NotEmpty(s: string) { s != [] }

  function StripAll(pieces: seq<string>): seq<string> {
    seq(|pieces|, i requires 0 <= i < |pieces| => Strip(IsSpace, pieces[i]))
  }

  function LineBreaksToSpaces(s: string): string {
    seq(|s|, i requires 0 <= i < |s| => if s[i] == '\n' then ' ' else s[i])
  }

  /** An answer's sentences: the non-blank stretches between full stops. */
  function Sentences(answer: string): (sentences: seq<string>)
    ensures forall s <- sentences :: s != ""
  {
    Filter(NotEmpty, StripAll(Split(IsFullStop, LineBreaksToSpaces(answer))))
  }

  function Words(text: string): seq<string> { Filter(NotEmpty, Split(IsSpace, text)) }

  const STOPWORDS: set<string> := {
    "a", "an", "the", "is", "are", "was", "were", "be", "been", "being", "of", "to", "in", "for", "on", "at", "by",
    "with", "and", "or", "that", "this", "these", "those", "it", "its", "as", "from", "must", "should", "may", "can",
    "will", "shall", "not"}

  const SCOPE_MARKERS: seq<string> := ["does not cover", "outside the scope", "not addressed", "no guidance"]

  function Bare(w: string, lower: string -> string): string { lower(Strip(IsPunctuation, w)) }

  /** The significant words of a text: long enough, stripped of punctuation, lowered, and not stop words. */
  function Significant(text: string, lower: string -> string): set<string> {
    set w <- Words(text) | |w| > 2 && Bare(w, lower) !in STOPWORDS :: Bare(w, lower)
  }

  predicate StartsAt(text: string, part: string, i: int) {
    0 <= i <= |text| && part <= text[i..]
  }

  predicate Contains(text: string, part: string) {
    exists i :: 0 <= i <= |text| && StartsAt(text, part, i)
  }

  predicate StatesScope(sentence: string, lower: string -> string) {
    exists marker <- SCOPE_MARKERS :: Contains(lower(sentence), marker)
  }

  /** The reading of text a keyword check rests on: how an answer falls into sentences, which words of a text
      are significant, whether a passage has a word, and whether a sentence states a limitation. */
  datatype Lexicon = Lexicon(
    sentences: string -> seq<string>, significant: string -> set<string>,
    hasWord: (string, string) -> bool, statesScope: string -> bool)

  /** The shipped lexicon, for a given case folding. */
  function ShippedLexicon(lower: string -> string): Lexicon {
    Lexicon(
      (answer: string) => Sentences(answer),
      (text: string) => Significant(text, lower),
      (passage: string, word: string) => Contains(lower(passage), word),
      (sentence: string) => StatesScope(sentence, lower))
  }

  /** What the verifier needs of a lexicon: no sentence is blank. */
  ghost predicate NoBlankSentences(lexicon: Lexicon) {
    forall answer: string :: forall s <- lexicon.sentences(answer) :: s != ""
  }

  lemma ShippedLexiconHasNoBlankSentences(lower: string -> string)
    ensures NoBlankSentences(ShippedLexicon(lower))
  {
  }
}
