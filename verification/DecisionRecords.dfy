/** Immutable decision records and the store that refuses to overwrite them. */
module DecisionRecords {
  import opened Collections
  import opened Domain
  import opened DecisionFunction

  datatype DecisionRecord = DecisionRecord(
    decisionId: string, recordedAt: int, contractId: string, contractVersion: string, correlationId: string,
    subjectId: string, requestRef: string, evidenceSetRef: string, authorizationResult: AuthorizationResult,
    outcome: DecisionOutcome, strategy: Option<ResponseStrategy>, reasonCode: Option<ReasonCode>,
    verificationMechanism: string, evidenceCount: nat, counts: ClaimCounts, latencyMs: nat,
    population: Population, environment: Environment)

  /** Two runs of digits joined by a full stop. */
  predicate VersionText(s: string) {
    exists i :: 0 < i < |s| - 1 && s[i] == '.' && forall j :: 0 <= j < |s| && j != i ==> '0' <= s[j] <= '9'
  }

  /** That is: some digits, a full stop, and some digits. */
  lemma {:induction false} VersionTextIff(s: string)
    ensures VersionText(s) <==> exists major, minor :: Versioned(major, minor) == s && Number(major) && Number(minor)
  {
    if VersionText(s) {
      var i :| 0 < i < |s| - 1 && s[i] == '.' && forall j :: 0 <= j < |s| && j != i ==> '0' <= s[j] <= '9';
      assert Versioned(s[..i], s[i + 1..]) == s;
      assert Number(s[..i]) && Number(s[i + 1..]);
    }
    if major, minor :| Versioned(major, minor) == s && Number(major) && Number(minor) { VersionedIsText(major, minor); }
  }

  lemma {:induction false} VersionedIsText(major: string, minor: string)
    requires Number(major) && Number(minor)
    ensures VersionText(Versioned(major, minor))
  {
    var s, i := Versioned(major, minor), |major|;
    forall j | 0 <= j < |s| && j != i ensures '0' <= s[j] <= '9' {
      if j < i { assert s[j] == major[j] && major[j] in major; }
        else { assert s[j] == minor[j - i - 1] && minor[j - i - 1] in minor; }
    }
    assert s[i] == '.';
  }

  function Versioned(major: string, minor: string): string { major + "." + minor }

  predicate Number(s: string) { s != "" && forall c <- s :: '0' <= c <= '9' }

  /** The record's own validators: identity, the outcome relation, and nothing read for a denied request. */
  predicate ValidRecord(r: DecisionRecord) {
    && r.decisionId != "" && r.contractId != "" && VersionText(r.contractVersion) && r.correlationId != ""
    && r.subjectId != "" && r.requestRef != "" && r.evidenceSetRef != "" && r.verificationMechanism != ""
    && OutcomeRelation(r.outcome, r.strategy, r.reasonCode)
    && (r.authorizationResult.DENIED? ==> r.outcome.REFUSED? && r.evidenceCount == 0 && r.counts.NotMeasured?)
  }

  /** A dictionary of records that remembers the order in which they were added. */
  datatype Records = Records(byId: map<string, DecisionRecord>, order: seq<string>)

  ghost predicate WellKept(rs: Records) {
    && (forall id :: id in rs.order <==> id in rs.byId)
    && (forall i, j :: 0 <= i < j < |rs.order| ==> rs.order[i] != rs.order[j])
    && (forall id <- rs.byId :: rs.byId[id].decisionId == id)
  }

  function Add(rs: Records, r: DecisionRecord): Records {
    Records(rs.byId[r.decisionId := r], rs.order + [r.decisionId])
  }

  lemma AddKeeps(rs: Records, r: DecisionRecord)
    requires WellKept(rs) && r.decisionId !in rs.byId
    ensures WellKept(Add(rs, r))
  {
    forall id ensures id in Add(rs, r).order <==> id in Add(rs, r).byId { }
  }

  lemma {:induction false} DistinctSize(ids: seq<string>)
    requires forall i, j :: 0 <= i < j < |ids| ==> ids[i] != ids[j]
    ensures |(set id <- ids)| == |ids|
  {
    if ids != [] {
      var rest := set id <- ids[1..];
      DistinctSize(ids[1..]);
      assert ids[0] !in ids[1..];
      assert (set id <- ids) == {ids[0]} + rest by { assert ids == [ids[0]] + ids[1..]; }
    }
  }

  lemma {:induction false} WellKeptSize(rs: Records)
    requires WellKept(rs)
    ensures |rs.byId| == |rs.order|
  {
    DistinctSize(rs.order);
    assert rs.byId.Keys == set id <- rs.order;
  }

  class InMemoryDecisionStore {
    var records: Records

    constructor ()
      ensures records == Records(map[], [])
    {
      records := Records(map[], []);
    }

    /** Stores a new record; a record whose identifier exists is refused and nothing changes. */
    method Append(record: DecisionRecord) returns (stored: bool)
      modifies this
      ensures stored <==> record.decisionId !in old(records).byId
      ensures records == if stored then Add(old(records), record) else old(records)
    {
      if record.decisionId in records.byId {
        return false;
      }
      records := Add(records, record);
      stored := true;
    }

    /** All that was stored, oldest first. */
    method All() returns (all: seq<DecisionRecord>)
      requires WellKept(records)
      ensures |all| == |records.order|
      ensures forall i :: 0 <= i < |all| ==>
                all[i].decisionId == records.order[i] && all[i] == records.byId[records.order[i]]
    {
      all := [];
      for i := 0 to |records.order|
        invariant |all| == i
        invariant forall j :: 0 <= j < i ==>
                    records.order[j] in records.byId && all[j].decisionId == records.order[j]
                      && all[j] == records.byId[records.order[j]]
      {
        assert records.order[i] in records.order;
        all := all + [records.byId[records.order[i]]];
      }
    }
  }
}
