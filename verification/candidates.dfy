/**
 * The candidate service: adding discovered items to the review queue (refusing duplicates
 * and items rejected before), listing and looking them up, and the two review decisions.
 */
module Candidates {
  import opened Results
  import opened QueueTypes
  import opened QueueStore
  import Seqs

  /** Why a service operation failed. */
  datatype QueueError =
    | CheckExistingFailed(readErr: ReadError)
    | DuplicateId(id: string)
    | CheckRejectedFailed(readErr: ReadError)
    | PreviouslyRejected(externalId: string)
    | ReadFailed(readErr: ReadError)
    | NotFound(id: string)
    | NotPending(id: string, status: CandidateStatus)
    | WriteFailed(err: string)

  /** `GenerateID`: "c-" followed by the clock's reading formatted as YYYYMMDDHHMM, given here as `stamp`. */
  function GenerateId(stamp: string): (id: string)
    ensures |id| == |stamp| + 2 && id[..2] == "c-" && id[2..] == stamp
  {
    "c-" + stamp
  }

  /**
   * The candidate as `Add` stores it: a missing ID generated from the clock, a missing
   * status made pending, a zero discovery time replaced by the current time; nothing
   * else changes.
   */
  function Filled(c: Candidate, stamp: string, now: Time): (r: Candidate)
    ensures r.id != "" && r.status != Unset
    ensures c.id != "" ==> r.id == c.id
    ensures c.status != Unset ==> r.status == c.status
    ensures c.status == Unset ==> r.status == Pending
    ensures c.discoveredAt != ZeroTime ==> r.discoveredAt == c.discoveredAt
    ensures r == c.(id := r.id, status := r.status, discoveredAt := r.discoveredAt)
  {
    c.(id := if c.id == "" then GenerateId(stamp) else c.id,
       status := if c.status == Unset then Pending else c.status,
       discoveredAt := if c.discoveredAt == ZeroTime then now else c.discoveredAt)
  }

  /**
   * What `Add` reports for an already filled candidate, given the two files: a failed
   * read of the queue, an ID already queued, a failed read of the rejected file, or an
   * external ID rejected before; `None` when the candidate is appended.
   */
  function AddOutcome(queue: JsonlFile, rejected: JsonlFile, c: Candidate): Option<QueueError> {
    if Decoded(queue).Err? then Some(CheckExistingFailed(Decoded(queue).error))
    else if FindFirst(Decoded(queue).value, c.id).Some? then Some(DuplicateId(c.id))
    else if ExternalId(c) == "" then None
    else if Decoded(rejected).Err? then Some(CheckRejectedFailed(Decoded(rejected).error))
    else if AnyMatchesExternal(Decoded(rejected).value, ExternalId(c), c.candidateType) then Some(PreviouslyRejected(ExternalId(c)))
    else None
  }

  /** No two queued candidates share an ID. */
  predicate UniqueIds(cs: seq<Candidate>) {
    forall i, j :: 0 <= i < j < |cs| ==> cs[i].id != cs[j].id
  }

  /**
   * `Add` keeps IDs unique: when it accepts a candidate, the queue still reads, with the
   * candidate at the end and no ID repeated.
   */
  lemma AddKeepsIdsUnique(queue: JsonlFile, rejected: JsonlFile, c: Candidate)
    requires Decoded(queue).Ok? && UniqueIds(Decoded(queue).value)
    requires AddOutcome(queue, rejected, c).None?
    ensures Decoded(AppendRecord(queue, c)) == Ok(Decoded(queue).value + [c])
    ensures UniqueIds(Decoded(AppendRecord(queue, c)).value)
  {
    ReadAfterAppend(queue, c);
    var cs := Decoded(queue).value;
    assert forall k :: 0 <= k < |cs| ==> cs[k].id != c.id;
    var all := cs + [c];
    forall i, j | 0 <= i < j < |all| ensures all[i].id != all[j].id {
      if j < |cs| {
        assert all[i] == cs[i] && all[j] == cs[j];
      } else {
        assert all[i] == cs[i];
      }
    }
  }

  /** A candidate whose external ID is among the rejected entries of its kind is never added. */
  lemma AddRefusesRejected(queue: JsonlFile, rejected: JsonlFile, c: Candidate, k: nat)
    requires Decoded(rejected).Ok? && k < |Decoded(rejected).value|
    requires ExternalId(c) != ""
    requires Decoded(rejected).value[k].candidateType == c.candidateType
    requires ExternalId(Decoded(rejected).value[k]) == ExternalId(c)
    ensures AddOutcome(queue, rejected, c).Some?
  {
    MatchesExternalId(Decoded(rejected).value[k], c);
  }

  /** A candidate whose ID is already queued is never added. */
  lemma AddRefusesDuplicate(queue: JsonlFile, rejected: JsonlFile, c: Candidate, k: nat)
    requires Decoded(queue).Ok? && k < |Decoded(queue).value|
    requires Decoded(queue).value[k].id == c.id
    ensures AddOutcome(queue, rejected, c) == Some(DuplicateId(c.id))
  {
  }

  /**
   * The candidate a review acts on: the first queued one with the ID, which must exist
   * and be pending.
   */
  function UnderReview(queue: JsonlFile, id: string): (r: Result<Candidate, QueueError>)
    ensures r.Ok? ==> Decoded(queue).Ok? && r.value.status == Pending && r.value.id == id
    ensures r.Ok? ==> FindFirst(Decoded(queue).value, id) == Some(r.value)
  {
    if Decoded(queue).Err? then Err(ReadFailed(Decoded(queue).error))
    else
      var found := FindFirst(Decoded(queue).value, id);
      if found.None? then Err(NotFound(id))
      else if found.value.status != Pending then Err(NotPending(id, found.value.status))
      else Ok(found.value)
  }

  /** The reviewed candidate after approval. */
  function ApprovedAs(c: Candidate, reviewedBy: string, notes: string, now: Time): Candidate {
    c.(status := Approved, reviewedAt := Some(now), reviewedBy := Some(reviewedBy), reviewNotes := Some(notes))
  }

  /** The reviewed candidate after rejection. */
  function RejectedAs(c: Candidate, reviewedBy: string, reason: string, now: Time): Candidate {
    c.(status := Rejected, reviewedAt := Some(now), reviewedBy := Some(reviewedBy), rejectionReason := Some(reason))
  }

  /**
   * A review changes exactly one queued entry, the first with the ID, from pending to the
   * decided status, keeping its ID; every other entry reads back as before.
   */
  lemma ReviewChangesOneEntry(queue: JsonlFile, id: string, decided: Candidate)
    requires UnderReview(queue, id).Ok?
    requires decided.id == id
    ensures var cs := Decoded(queue).value;
      var k := FirstWithId(cs, id);
      && Decoded(Present(Encode(ReplaceFirst(cs, decided)))) == Ok(cs[k := decided])
      && cs[k].status == Pending
  {
    var cs := Decoded(queue).value;
    ReadAfterWrite(ReplaceFirst(cs, decided));
    assert ReplaceFirst(cs, decided) == cs[FirstWithId(cs, id) := decided];
  }

  /** `List`'s filter: each filter that is given must match. */
  function Selected(statusFilter: Option<CandidateStatus>, typeFilter: Option<CandidateType>): Candidate -> bool {
    (c: Candidate) => (statusFilter.None? || c.status == statusFilter.value) && (typeFilter.None? || c.candidateType == typeFilter.value)
  }

  /** With no filter given, `List` returns every candidate. */
  lemma {:induction false} NoFilterKeepsAll(cs: seq<Candidate>)
    ensures Seqs.Filter(cs, Selected(None, None)) == cs
    decreases |cs|
  {
    if cs != [] {
      NoFilterKeepsAll(cs[..|cs| - 1]);
      assert cs[..|cs| - 1] + [cs[|cs| - 1]] == cs;
    }
  }

  /** A candidate is listed exactly when it is queued and matches every filter given. */
  lemma ListedIff(cs: seq<Candidate>, statusFilter: Option<CandidateStatus>, typeFilter: Option<CandidateType>, c: Candidate)
    ensures c in Seqs.Filter(cs, Selected(statusFilter, typeFilter)) <==>
      c in cs && (statusFilter.None? || c.status == statusFilter.value) && (typeFilter.None? || c.candidateType == typeFilter.value)
  {
    if c in cs && Selected(statusFilter, typeFilter)(c) {
      Seqs.FilterKeeps(cs, Selected(statusFilter, typeFilter), c);
    }
  }

  /** `CandidateService`: queue operations over one store. */
  class CandidateService {
    const store: Store

    constructor (store: Store)
      ensures this.store == store
    {
      this.store := store;
    }

    /**
     * `Add`: the candidate, filled in, appended to the queue unless `AddOutcome` refuses
     * it; a refused candidate leaves both files as they were. `stamp` and `now` are the
     * clock's readings.
     */
    method Add(c: Candidate, stamp: string, now: Time) returns (err: Option<QueueError>)
      modifies store
      ensures err == AddOutcome(old(store.queue), old(store.rejected), Filled(c, stamp, now))
      ensures err.None? ==> store.queue == AppendRecord(old(store.queue), Filled(c, stamp, now))
      ensures err.Some? ==> store.queue == old(store.queue)
      ensures store.rejected == old(store.rejected)
    {
      var filled := Filled(c, stamp, now);
      var existing := store.FindById(filled.id);
      if existing.Err? {
        return Some(CheckExistingFailed(existing.error));
      }
      if existing.value.Some? {
        return Some(DuplicateId(filled.id));
      }
      var externalId := ExternalIdOf(filled);
      if externalId != "" {
        var rejected := store.IsRejected(externalId, filled.candidateType);
        if rejected.Err? {
          return Some(CheckRejectedFailed(rejected.error));
        }
        if rejected.value {
          return Some(PreviouslyRejected(externalId));
        }
      }
      // The queue was read above, so it can be opened and the append succeeds.
      var _ := store.Append(filled);
      err := None;
    }

    /** `List`: the queued candidates that match every filter given, in queue order. */
    method List(statusFilter: Option<CandidateStatus>, typeFilter: Option<CandidateType>)
      returns (r: Result<seq<Candidate>, ReadError>)
      ensures Decoded(store.queue).Err? ==> r == Err(Decoded(store.queue).error)
      ensures Decoded(store.queue).Ok? ==> r == Ok(Seqs.Filter(Decoded(store.queue).value, Selected(statusFilter, typeFilter)))
    {
      var candidates := store.ReadAll();
      if candidates.Err? {
        return Err(candidates.error);
      }
      var cs := candidates.value;
      if statusFilter.None? && typeFilter.None? {
        NoFilterKeepsAll(cs);
        return Ok(cs);
      }
      var filtered: seq<Candidate> := [];
      var i := 0;
      while i < |cs|
        invariant 0 <= i <= |cs|
        invariant filtered == Seqs.Filter(cs[..i], Selected(statusFilter, typeFilter))
      {
        assert cs[..i + 1][..i] == cs[..i];
        var c := cs[i];
        i := i + 1;
        if statusFilter.Some? && c.status != statusFilter.value {
          continue;
        }
        if typeFilter.Some? && c.candidateType != typeFilter.value {
          continue;
        }
        filtered := filtered + [c];
      }
      assert cs[..i] == cs;
      return Ok(filtered);
    }

    /** `Get`: the first queued candidate with the ID. */
    method Get(id: string) returns (r: Result<Option<Candidate>, ReadError>)
      ensures Decoded(store.queue).Err? ==> r == Err(Decoded(store.queue).error)
      ensures Decoded(store.queue).Ok? ==> r == Ok(FindFirst(Decoded(store.queue).value, id))
    {
      r := store.FindById(id);
    }

    /**
     * `Approve`: the first queued candidate with the ID, if pending, rewritten as approved
     * with the reviewer, the notes and the time; otherwise an error and no change.
     */
    method Approve(id: string, reviewedBy: string, notes: string, now: Time) returns (err: Option<QueueError>)
      modifies store
      ensures store.rejected == old(store.rejected)
      ensures UnderReview(old(store.queue), id).Err? ==>
        err == Some(UnderReview(old(store.queue), id).error) && store.queue == old(store.queue)
      ensures UnderReview(old(store.queue), id).Ok? ==>
        err == None &&
        store.queue == Present(Encode(ReplaceFirst(Decoded(old(store.queue)).value,
          ApprovedAs(UnderReview(old(store.queue), id).value, reviewedBy, notes, now))))
    {
      var c := FindPending(id);
      if c.Err? {
        return Some(c.error);
      }
      var approved := ApprovedAs(c.value, reviewedBy, notes, now);
      // The lookup above read the queue and found the ID, so the update succeeds.
      var _ := store.Update(approved);
      return None;
    }

    /**
     * `Reject`: the first queued candidate with the ID, if pending, rewritten as rejected
     * with the reviewer, the reason and the time, and then added to the rejected file; an
     * error from that last append is reported after the queue was already rewritten.
     */
    method Reject(id: string, reviewedBy: string, reason: string, now: Time) returns (err: Option<QueueError>)
      modifies store
      ensures UnderReview(old(store.queue), id).Err? ==>
        err == Some(UnderReview(old(store.queue), id).error) &&
        store.queue == old(store.queue) && store.rejected == old(store.rejected)
      ensures UnderReview(old(store.queue), id).Ok? ==>
        var decided := RejectedAs(UnderReview(old(store.queue), id).value, reviewedBy, reason, now);
        && store.queue == Present(Encode(ReplaceFirst(Decoded(old(store.queue)).value, decided)))
        && store.rejected == AppendRecord(old(store.rejected), decided)
        && (err.Some? <==> old(store.rejected).OpenFailed?)
    {
      var c := FindPending(id);
      if c.Err? {
        return Some(c.error);
      }
      var rejected := RejectedAs(c.value, reviewedBy, reason, now);
      // The lookup above read the queue and found the ID, so the update succeeds.
      var _ := store.Update(rejected);
      var appendErr := store.AppendRejected(rejected);
      if appendErr.Some? {
        return Some(WriteFailed(appendErr.value));
      }
      return None;
    }

    /** `Stats`: the statistics of the queue. */
    method Stats() returns (r: Result<QueueStats, ReadError>)
      ensures Decoded(store.queue).Err? ==> r == Err(Decoded(store.queue).error)
      ensures Decoded(store.queue).Ok? ==> r == Ok(StatsOf(Decoded(store.queue).value))
    {
      r := store.GetStats();
    }

    /** The lookup and the status check `Approve` and `Reject` share. */
    method FindPending(id: string) returns (r: Result<Candidate, QueueError>)
      ensures r == UnderReview(store.queue, id)
    {
      var found := store.FindById(id);
      if found.Err? {
        return Err(ReadFailed(found.error));
      }
      if found.value.None? {
        return Err(NotFound(id));
      }
      var c := found.value.value;
      if c.status != Pending {
        return Err(NotPending(id, c.status));
      }
      return Ok(c);
    }
  }

  /** `getExternalID`, branch by branch. */
  method ExternalIdOf(c: Candidate) returns (externalId: string)
    ensures externalId == ExternalId(c)
  {
    match c.candidateType {
      case Paper =>
        if c.paperData.Some? {
          return c.paperData.value.s2Id;
        }
      case Repo =>
        if c.repoData.Some? {
          return c.repoData.value.url;
        }
      case CodeLocation =>
        if c.codeLocationData.Some? {
          return c.codeLocationData.value.permalinkUrl;
        }
      case Concept =>
    }
    return "";
  }
}
