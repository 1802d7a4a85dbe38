/** The append-only transition log: what its representation keeps, and what its append accepts. */
module LifecycleLog {
  import opened Collections
  import opened Sorting
  import opened Lifecycle

  predicate Numbered(history: seq<Transition>) {
    forall i :: 0 <= i < |history| ==> history[i].sequence == i + 1
  }

  /** Each decision's recorded positions are exactly 1, 2, ..., n, in that order. */
  ghost predicate Contiguous(log: seq<Transition>) {
    forall decisionId: string :: Numbered(Filter(OfDecision(decisionId), log))
  }

  lemma {:induction false} NumberedSorted(history: seq<Transition>)
    requires Numbered(history)
    ensures Sort(SequenceLeq, history) == history
  {
    SortIdentity(SequenceLeq, history);
  }

  /** On a contiguous log the sort in the per-decision query is the identity. */
  lemma {:induction false} ForDecisionIsFilter(log: seq<Transition>, decisionId: string)
    requires Contiguous(log)
    ensures ForDecision(log, decisionId) == Filter(OfDecision(decisionId), log)
    ensures Numbered(ForDecision(log, decisionId))
  {
    NumberedSorted(Filter(OfDecision(decisionId), log));
  }

  lemma {:induction false} FilterAppend(log: seq<Transition>, t: Transition, decisionId: string)
    ensures Filter(OfDecision(decisionId), log + [t])
         == Filter(OfDecision(decisionId), log) + if t.decisionId == decisionId then [t] else []
  {
    FilterConcat(OfDecision(decisionId), log, [t]);
    assert [t][1..] == [];
  }

  /** The positions taken by a decision are exactly those of its history. */
  lemma {:induction false} KeysOfHistory(log: seq<Transition>, decisionId: string, sequence: int)
    requires Contiguous(log)
    ensures (decisionId, sequence) in Keys(log) <==> 1 <= sequence <= |ForDecision(log, decisionId)|
  {
    ForDecisionIsFilter(log, decisionId);
    var history := Filter(OfDecision(decisionId), log);
    FilterKeeps(OfDecision(decisionId), log);
    if (decisionId, sequence) in Keys(log) {
      var t :| t in log && t.decisionId == decisionId && t.sequence == sequence;
      assert OfDecision(decisionId)(t) && t in history;
      var i :| 0 <= i < |history| && history[i] == t;
    }
    if 1 <= sequence <= |history| {
      var t := history[sequence - 1];
      assert t in history && t in log && OfDecision(decisionId)(t);
    }
  }

  /** The log accepts exactly the next position of a decision, whatever transition it carries; the duplicate
      check fires exactly on the positions already taken. */
  lemma {:induction false} AppendAcceptsExactlyNext(log: seq<Transition>, t: Transition)
    requires Contiguous(log)
    ensures Appendable(log, t) <==> t.sequence == |ForDecision(log, t.decisionId)| + 1
    ensures (t.decisionId, t.sequence) in Keys(log) <==> 1 <= t.sequence <= |ForDecision(log, t.decisionId)|
  {
    KeysOfHistory(log, t.decisionId, t.sequence);
  }

  lemma {:induction false} AppendNumbers(log: seq<Transition>, t: Transition)
    requires Contiguous(log) && t.sequence == |ForDecision(log, t.decisionId)| + 1
    ensures Contiguous(log + [t])
  {
    forall decisionId: string ensures Numbered(Filter(OfDecision(decisionId), log + [t])) {
      FilterAppend(log, t, decisionId);
      ForDecisionIsFilter(log, decisionId);
    }
  }

  lemma {:induction false} AppendKeepsContiguous(log: seq<Transition>, t: Transition)
    requires Contiguous(log) && t.sequence == |ForDecision(log, t.decisionId)| + 1
    ensures Contiguous(log + [t])
    ensures Keys(log + [t]) == Keys(log) + {(t.decisionId, t.sequence)}
    ensures forall decisionId: string ::
              ForDecision(log + [t], decisionId)
              == ForDecision(log, decisionId) + if t.decisionId == decisionId then [t] else []
  {
    AppendNumbers(log, t);
    forall decisionId: string
      ensures ForDecision(log + [t], decisionId)
           == ForDecision(log, decisionId) + if t.decisionId == decisionId then [t] else []
    {
      FilterAppend(log, t, decisionId);
      ForDecisionIsFilter(log, decisionId);
      ForDecisionIsFilter(log + [t], decisionId);
    }
  }

  datatype LogError = PositionTaken | OutOfOrder(expected: int)

  class InMemoryTransitionLog {
    var transitions: seq<Transition>
    var seen: set<(string, int)>

    ghost predicate Valid()
      reads this
    {
      seen == Keys(transitions) && Contiguous(transitions)
    }

    constructor ()
      ensures Valid() && transitions == []
    {
      transitions := [];
      seen := {};
    }

    /** Accepts exactly the next position; a refused append changes nothing. */
    method Append(t: Transition) returns (result: Result<(), LogError>)
      requires Valid()
      modifies this
      ensures Valid()
      ensures result.Success? <==> old(Appendable(transitions, t))
      ensures result.Success? ==> transitions == old(transitions) + [t]
      ensures result.Failure? ==> transitions == old(transitions) && seen == old(seen)
      ensures result == Failure(PositionTaken) <==> 1 <= t.sequence <= |ForDecision(old(transitions), t.decisionId)|
    {
      AppendAcceptsExactlyNext(transitions, t);
      var key := (t.decisionId, t.sequence);
      if key in seen {
        return Failure(PositionTaken);
      }
      var expected := |ForDecision(transitions, t.decisionId)| + 1;
      if t.sequence != expected {
        return Failure(OutOfOrder(expected));
      }
      AppendKeepsContiguous(transitions, t);
      seen := seen + {key};
      transitions := transitions + [t];
      result := Success(());
    }
  }
}
