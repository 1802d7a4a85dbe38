/** Evidence sets, the ranked window over them, and the two gates applied before generation. */
module Evidence {
  import opened Collections
  import opened Sorting
  import opened Domain

  datatype EvidenceItem = EvidenceItem(evidenceId: string, text: string, relevanceScore: real, provenance: string)

  datatype EvidenceSet = EvidenceSet(evidenceSetRef: string, items: seq<EvidenceItem>)

  /** What the item model enforces and the verifiers rely on: every item has an identifier. */
  predicate Identified(items: seq<EvidenceItem>) {
    forall item <- items :: item.evidenceId != ""
  }

  /** Code-point order on strings. */
  predicate TextLeq(a: string, b: string) {
    a == [] || (b != [] && (a[0] < b[0] || (a[0] == b[0] && TextLeq(a[1..], b[1..]))))
  }

  predicate DiffersFirstAt(a: string, b: string, k: nat) {
    k < |a| && k < |b| && a[..k] == b[..k] && a[k] < b[k]
  }

  /** One text comes before another when it begins the other, or is the lesser where they first differ. */
  lemma {:induction false} TextLeqMeaning(a: string, b: string)
    ensures TextLeq(a, b) <==> a <= b || exists k: nat :: DiffersFirstAt(a, b, k)
  {
    if a != [] && b != [] && a[0] == b[0] {
      TextLeqMeaning(a[1..], b[1..]);
      assert a == [a[0]] + a[1..] && b == [b[0]] + b[1..];
      if k: nat :| DiffersFirstAt(a[1..], b[1..], k) {
        assert a[..k + 1] == [a[0]] + a[1..][..k] && b[..k + 1] == [b[0]] + b[1..][..k];
        assert DiffersFirstAt(a, b, k + 1);
      }
      if k: nat :| DiffersFirstAt(a, b, k) {
        assert 0 < k && a[1..][..k - 1] == a[..k][1..] && b[1..][..k - 1] == b[..k][1..];
        assert DiffersFirstAt(a[1..], b[1..], k - 1);
      }
    } else if a != [] && b != [] && a[0] < b[0] {
      assert a[..0] == b[..0];
      assert DiffersFirstAt(a, b, 0);
    }
  }

  lemma {:induction false} TextLeqTotal(a: string, b: string)
    ensures TextLeq(a, b) || TextLeq(b, a)
    ensures TextLeq(a, b) && TextLeq(b, a) ==> a == b
  {
    if a != [] && b != [] && a[0] == b[0] {
      TextLeqTotal(a[1..], b[1..]);
      assert a == [a[0]] + a[1..] && b == [b[0]] + b[1..];
    }
  }

  lemma {:induction false} TextLeqTransitive(a: string, b: string, c: string)
    requires TextLeq(a, b) && TextLeq(b, c)
    ensures TextLeq(a, c)
  {
    if a != [] && a[0] == b[0] && b[0] == c[0] {
      TextLeqTransitive(a[1..], b[1..], c[1..]);
    }
  }

  /** Higher relevance first, ties broken by identifier. */
  predicate RankLeq(a: EvidenceItem, b: EvidenceItem) {
    a.relevanceScore > b.relevanceScore
    || (a.relevanceScore == b.relevanceScore && TextLeq(a.evidenceId, b.evidenceId))
  }

  lemma RankLeqIsOrder()
    ensures TotalPreorder(RankLeq)
    ensures forall x, y :: RankLeq(x, y) && RankLeq(y, x) <==>
              x.relevanceScore == y.relevanceScore && x.evidenceId == y.evidenceId
  {
    forall x, y
      ensures RankLeq(x, y) || RankLeq(y, x)
      ensures RankLeq(x, y) && RankLeq(y, x) <==> x.relevanceScore == y.relevanceScore && x.evidenceId == y.evidenceId
    {
      TextLeqTotal(x.evidenceId, y.evidenceId);
    }
    forall x, y, z | RankLeq(x, y) && RankLeq(y, z) ensures RankLeq(x, z) {
      if x.relevanceScore == y.relevanceScore == z.relevanceScore {
        TextLeqTransitive(x.evidenceId, y.evidenceId, z.evidenceId);
      }
    }
  }

  function Ranked(items: seq<EvidenceItem>): seq<EvidenceItem> { Sort(RankLeq, items) }

  /** The slice `xs[:k]`: a negative bound counts from the end. */
  function Head<T>(xs: seq<T>, k: int): seq<T> {
    if k >= |xs| then xs else if k >= 0 then xs[..k] else if -k <= |xs| then xs[..|xs| + k] else []
  }

  lemma HeadIsPrefix<T>(xs: seq<T>, k: int)
    ensures Head(xs, k) <= xs
  {
  }

  function TruncatedTo(e: EvidenceSet, topK: int): EvidenceSet {
    EvidenceSet(e.evidenceSetRef, Head(Ranked(e.items), topK))
  }

  lemma {:induction false} SortedSplits<T>(leq: (T, T) -> bool, xs: seq<T>, k: nat)
    requires Sorted(leq, xs) && k <= |xs|
    ensures Sorted(leq, xs[..k])
    ensures multiset(xs[..k]) + multiset(xs[k..]) == multiset(xs)
    ensures forall x <- xs[..k], y <- xs[k..] :: leq(x, y)
  {
    assert xs == xs[..k] + xs[k..];
    forall x <- xs[..k], y <- xs[k..] ensures leq(x, y) {
      var i :| 0 <= i < k && xs[..k][i] == x;
      var j :| 0 <= j < |xs| - k && xs[k..][j] == y;
      assert xs[i] == x && xs[k + j] == y;
    }
  }

  /** The window and what it leaves out are the whole set, the window is ranked, and nothing left out ranks
      strictly above anything kept. */
  lemma {:induction false} WindowIsTheTop(e: EvidenceSet, topK: nat) returns (excluded: seq<EvidenceItem>)
    ensures var window := TruncatedTo(e, topK).items;
            && |window| == (if |e.items| < topK then |e.items| else topK)
            && multiset(window) + multiset(excluded) == multiset(e.items)
            && Sorted(RankLeq, window)
            && forall kept <- window, left <- excluded :: RankLeq(kept, left)
  {
    RankLeqIsOrder();
    SortSorted(RankLeq, e.items);
    var ranked := Ranked(e.items);
    var k := if |ranked| < topK then |ranked| else topK;
    excluded := ranked[k..];
    SortedSplits(RankLeq, ranked, k);
    assert TruncatedTo(e, topK).items == ranked[..k];
  }

  /** An item is kept before another: it scores more, or as much and its identifier begins the other's or is the
      lesser where they first differ. */
  ghost predicate KeptBefore(kept: EvidenceItem, left: EvidenceItem) {
    || kept.relevanceScore > left.relevanceScore
    || (kept.relevanceScore == left.relevanceScore
        && (kept.evidenceId <= left.evidenceId
            || exists k: nat :: DiffersFirstAt(kept.evidenceId, left.evidenceId, k)))
  }

  lemma RankMeaning(kept: EvidenceItem, left: EvidenceItem)
    ensures RankLeq(kept, left) <==> KeptBefore(kept, left)
  {
    TextLeqMeaning(kept.evidenceId, left.evidenceId);
  }

  /** What a window leaves out scores less than all it keeps, or ties with it and has the later identifier. */
  lemma {:induction false} WindowPrefersLesserId(e: EvidenceSet, topK: nat) returns (excluded: seq<EvidenceItem>)
    ensures multiset(TruncatedTo(e, topK).items) + multiset(excluded) == multiset(e.items)
    ensures forall kept <- TruncatedTo(e, topK).items, left <- excluded :: KeptBefore(kept, left)
  {
    excluded := WindowIsTheTop(e, topK);
    forall kept <- TruncatedTo(e, topK).items, left <- excluded ensures KeptBefore(kept, left) {
      RankMeaning(kept, left);
    }
  }

  /** Narrowing a window twice is narrowing it once, to the smaller bound. */
  lemma {:induction false} WindowsCompose(e: EvidenceSet, j: nat, k: nat)
    ensures TruncatedTo(TruncatedTo(e, j), k) == TruncatedTo(e, if j < k then j else k)
  {
    RankLeqIsOrder();
    SortSorted(RankLeq, e.items);
    SortIdentity(RankLeq, TruncatedTo(e, j).items);
  }

  /** Items that tie keep the order they were retrieved in, and a window keeps the earliest of them. */
  lemma {:induction false} WindowKeepsTies(e: EvidenceSet, topK: int, item: EvidenceItem)
    ensures var ties := TyingWith(RankLeq, item);
            && Filter(ties, Ranked(e.items)) == Filter(ties, e.items)
            && Filter(ties, TruncatedTo(e, topK).items) <= Filter(ties, e.items)
  {
    RankLeqIsOrder();
    SortStable(RankLeq, item, e.items);
    HeadIsPrefix(Ranked(e.items), topK);
    FilterPrefix(TyingWith(RankLeq, item), TruncatedTo(e, topK).items, Ranked(e.items));
  }

  /** Items are told apart by score and identifier. */
  predicate DistinctRanks(items: seq<EvidenceItem>) {
    forall x <- items, y <- items :: x.relevanceScore == y.relevanceScore && x.evidenceId == y.evidenceId ==> x == y
  }

  /** When score and identifier tell items apart, the window does not depend on the order of retrieval. */
  lemma {:induction false} WindowIgnoresRetrievalOrder(e: EvidenceSet, items: seq<EvidenceItem>, topK: int)
    requires DistinctRanks(e.items) && multiset(items) == multiset(e.items)
    ensures TruncatedTo(e, topK) == TruncatedTo(e.(items := items), topK)
  {
    RankLeqIsOrder();
    SortSorted(RankLeq, e.items);
    SortSorted(RankLeq, items);
    SameElements(Ranked(e.items), e.items);
    SortedUnique(RankLeq, Ranked(e.items), Ranked(items));
  }

  // ---- Sufficiency -----------------------------------------------------------------------

  datatype EvidenceGate = EvidenceGate(minSimilarityScore: real, minChunksRequired: int, topK: int)

  /** The bounds the contract model puts on its gate. */
  predicate ValidGate(gate: EvidenceGate) {
    1 <= gate.minChunksRequired && 1 <= gate.topK
  }

  datatype GateResult = GateResult(sufficient: bool, quality: EvidenceQuality, observedTopScore: real,
                                   observedCount: nat)

  function MaxScore(items: seq<EvidenceItem>): real
    requires items != []
  {
    if |items| == 1 then items[0].relevanceScore
    else
      var rest := MaxScore(items[1..]);
      if items[0].relevanceScore < rest then rest else items[0].relevanceScore
  }

  function TopScore(items: seq<EvidenceItem>): real {
    if items == [] then 0.0 else MaxScore(items)
  }

  lemma {:induction false} MaxScoreMeaning(items: seq<EvidenceItem>)
    requires items != []
    ensures exists item <- items :: item.relevanceScore == MaxScore(items)
    ensures forall item <- items :: item.relevanceScore <= MaxScore(items)
  {
    assert items == [items[0]] + items[1..];
    if |items| > 1 {
      MaxScoreMeaning(items[1..]);
      var best :| best in items[1..] && best.relevanceScore == MaxScore(items[1..]);
      assert best in items;
    }
    assert items[0] in items;
  }

  function EvaluateGate(e: EvidenceSet, gate: EvidenceGate): GateResult {
    var window := TruncatedTo(e, gate.topK);
    var count, top := |window.items|, TopScore(window.items);
    if count == 0 then GateResult(false, EMPTY, 0.0, 0)
    else if count < gate.minChunksRequired then GateResult(false, INSUFFICIENT, top, count)
    else if top < gate.minSimilarityScore then GateResult(false, INSUFFICIENT, top, count)
    else GateResult(true, SUFFICIENT, top, count)
  }

  /** The best score in a window is the best score in the whole set. */
  lemma {:induction false} WindowKeepsTopScore(e: EvidenceSet, topK: nat)
    requires 0 < topK
    ensures TopScore(TruncatedTo(e, topK).items) == TopScore(e.items)
  {
    var window := TruncatedTo(e, topK).items;
    var excluded := WindowIsTheTop(e, topK);
    if e.items != [] {
      MaxScoreMeaning(e.items);
      MaxScoreMeaning(window);
      var best :| best in e.items && best.relevanceScore == MaxScore(e.items);
      assert best in multiset(e.items);
      var top :| top in window && top.relevanceScore == MaxScore(window);
      assert top in multiset(window) && top in multiset(e.items);
      if best in excluded { assert RankLeq(window[0], best) && window[0] in window; }
    }
  }

  /** The gate is about the retrieved set itself: enough items survive the window, and the best item of the
      whole set clears the bar. */
  lemma {:induction false} GateMeaning(e: EvidenceSet, gate: EvidenceGate)
    requires ValidGate(gate)
    ensures var result := EvaluateGate(e, gate);
            && (result.sufficient <==>
                  && gate.minChunksRequired <= (if |e.items| < gate.topK then |e.items| else gate.topK)
                  && exists item <- e.items :: gate.minSimilarityScore <= item.relevanceScore)
            && (result.quality.EMPTY? <==> e.items == [])
            && (result.quality.SUFFICIENT? <==> result.sufficient)
            && result.observedTopScore == TopScore(e.items)
            && result.observedCount == (if |e.items| < gate.topK then |e.items| else gate.topK)
  {
    var excluded := WindowIsTheTop(e, gate.topK);
    WindowKeepsTopScore(e, gate.topK);
    if e.items != [] {
      MaxScoreMeaning(e.items);
    }
  }

  // ---- Provenance ------------------------------------------------------------------------

  datatype ProvenanceRule = ProvenanceRule(required: bool, permittedSources: seq<string>)

  /** The first item of unacceptable origin, when the contract asks for provenance at all. */
  function CheckProvenance(items: seq<EvidenceItem>, rule: ProvenanceRule): Option<EvidenceItem> {
    if !rule.required || items == [] then None
    else if items[0].provenance !in rule.permittedSources then Some(items[0])
    else CheckProvenance(items[1..], rule)
  }

  predicate Permitted(items: seq<EvidenceItem>, rule: ProvenanceRule) {
    rule.required ==> forall item <- items :: item.provenance in rule.permittedSources
  }

  lemma {:induction false} ProvenanceMeaning(items: seq<EvidenceItem>, rule: ProvenanceRule)
    ensures CheckProvenance(items, rule).None? <==> Permitted(items, rule)
    ensures CheckProvenance(items, rule).Some? ==>
              CheckProvenance(items, rule).value in items
                && CheckProvenance(items, rule).value.provenance !in rule.permittedSources
  {
    if items != [] {
      assert items == [items[0]] + items[1..];
      ProvenanceMeaning(items[1..], rule);
    }
  }

  /** Every item of a window over permitted evidence is permitted. */
  lemma {:induction false} WindowPermitted(e: EvidenceSet, rule: ProvenanceRule, topK: int)
    requires Permitted(e.items, rule)
    ensures Permitted(TruncatedTo(e, topK).items, rule)
    ensures forall item <- TruncatedTo(e, topK).items :: item in e.items
  {
    SameElements(Ranked(e.items), e.items);
    forall item <- TruncatedTo(e, topK).items ensures item in e.items {
      assert item in Ranked(e.items);
    }
  }
}
