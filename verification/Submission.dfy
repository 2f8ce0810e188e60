/**
 Submitting one candidate: validation, the outstanding-work bound, the deduplication marker
 and the enqueue. Admission has the steps of many concurrent submitters.
 */
module Submission {
  import opened Wrappers
  import opened Jobs
  import opened Idempotency
  import Text

  datatype Priority = High | Normal | Low

  datatype Candidate = Candidate(
    candidateUrl: string,
    mediaEvidenceId: string,
    mediaType: string,
    sourceDomain: string,
    targetId: string,
    targetVersion: string,
    techniques: seq<string>,
    priority: Priority,
    maxAttempts: int)

  function LowerChar(c: char): char {
    if 'A' <= c <= 'Z' then c + ' ' else c
  }

  function Lower(s: string): string {
    seq(|s|, i requires 0 <= i < |s| => LowerChar(s[i]))
  }

  predicate AllowedUrl(url: string) {
    "http://" <= Lower(url) || "https://" <= Lower(url)
  }

  predicate Validates(c: Candidate) {
    && AllowedUrl(c.candidateUrl)
    && c.mediaEvidenceId != "" && c.mediaType != "" && c.sourceDomain != "" && c.targetId != "" && c.targetVersion != ""
    && c.techniques != []
    && c.maxAttempts >= 1
  }

  function JobFor(c: Candidate, id: string): Job {
    Job(id, c.mediaEvidenceId, c.candidateUrl, c.mediaType, c.sourceDomain, c.targetId, c.targetVersion,
        c.techniques, c.maxAttempts, JOB_SCHEMA_VERSION)
  }

  function DeriveJobId(hash: Payload -> string, c: Candidate): string {
    hash(Canonical(c.candidateUrl, c.targetId, c.targetVersion, c.techniques))
  }

  /** Two candidates that ask for the same work: one url against one version of one target with the same
      techniques in any order. The rest of a candidate does not matter. */
  predicate SameWork(c: Candidate, d: Candidate) {
    && c.candidateUrl == d.candidateUrl && c.targetId == d.targetId && c.targetVersion == d.targetVersion
    && multiset(c.techniques) == multiset(d.techniques)
  }

  /** With a hash that does not collide, candidates share a job id exactly when they ask for the same work. */
  lemma JobIdIff(hash: Payload -> string, c: Candidate, d: Candidate)
    requires Injective(hash)
    ensures DeriveJobId(hash, c) == DeriveJobId(hash, d) <==> SameWork(c, d)
  {
    SameIdIff(hash, c.candidateUrl, c.targetId, c.targetVersion, c.techniques, d.candidateUrl, d.targetId, d.targetVersion, d.techniques);
  }

  /** The url schemes let through, in any case. */
  lemma AllowedSchemes(url: string)
    ensures AllowedUrl(url) <==>
            && |url| >= 7 && url[0] in "hH" && url[1] in "tT" && url[2] in "tT" && url[3] in "pP"
            && (url[4..7] == "://" || (|url| >= 8 && url[4] in "sS" && url[5..8] == "://"))
  {
    var low := Lower(url);
    assert forall k :: 0 <= k < |url| ==> low[k] == LowerChar(url[k]);
    if |url| >= 7 {
      assert url[4..7] == [url[4], url[5], url[6]];
      assert "http://" <= low <==> low[..7] == "http://";
      assert low[..7] == [low[0], low[1], low[2], low[3], low[4], low[5], low[6]];
    }
    if |url| >= 8 {
      assert url[5..8] == [url[5], url[6], url[7]];
      assert "https://" <= low <==> low[..8] == "https://";
      assert low[..8] == [low[0], low[1], low[2], low[3], low[4], low[5], low[6], low[7]];
    }
  }

  /** The entry that a submission appends. */
  lemma SubmittedEntry(c: Candidate, id: string)
    ensures Print(JobFor(c, id)) ==
            map[JobId := id, MediaEvidenceId := c.mediaEvidenceId, MediaUrl := c.candidateUrl, MediaType := c.mediaType,
                SourceDomain := c.sourceDomain, TargetId := c.targetId, TargetVersion := c.targetVersion,
                Techniques := Text.Join(c.techniques, ','), MaxAttempts := Text.Decimal(c.maxAttempts), SchemaVersion := "1"]
  {
    assert Text.Decimal(1) == "1";
  }

  /** Validation does not look inside the techniques, so it lets through candidates whose entry
      the worker reads differently or rejects: an admitted candidate reaches the worker as
      submitted exactly when no technique is empty or holds a comma. */
  lemma AdmittedReachesWorker(c: Candidate, id: string)
    requires Validates(c) && id != ""
    ensures Parse(Print(JobFor(c, id))) == Ok(JobFor(c, id)) <==> (forall t :: t in c.techniques ==> t != "" && ',' !in t)
  {
    RoundTrip(JobFor(c, id));
    assert c.candidateUrl != "";
  }

  /** Of the candidates whose techniques are plain, validation lets through exactly those with an allowed
      url that reach the worker as submitted. */
  lemma ValidationIsExact(c: Candidate, id: string)
    requires id != "" && forall t :: t in c.techniques ==> t != "" && ',' !in t
    ensures Validates(c) <==> AllowedUrl(c.candidateUrl) && Parse(Print(JobFor(c, id))) == Ok(JobFor(c, id))
  {
    RoundTrip(JobFor(c, id));
    AllowedSchemes(c.candidateUrl);
  }

  /** From any candidate that validates: one that does too and whose entry the worker rejects. */
  lemma EmptyTechniqueIsRejectedLater(c: Candidate, id: string)
    requires Validates(c) && id != ""
    ensures var d := c.(techniques := [""]); Validates(d) && Parse(Print(JobFor(d, id))).Err?
  {
    var fields := Print(JobFor(c.(techniques := [""]), id));
    assert Text.Join([""], ',') == "";
    assert !Present(fields, Techniques);
    AllPresent(fields);
  }

  datatype Outcome = ENQUEUED | DUPLICATE_SUPPRESSED | REJECTED_BACKPRESSURE | REJECTED_INVALID | Raised

  datatype SubmissionResult = SubmissionResult(outcome: Outcome, jobId: Option<string>)

  /** XINFO GROUPS: the groups of a stream with their lag, unknown after a trim, and pending count. */
  datatype GroupInfo = GroupInfo(name: string, lag: Option<nat>, pending: nat)

  const CONSUMER_GROUP := "fingerprinter-workers"

  function CountOutstanding(groups: seq<GroupInfo>): Option<nat> {
    if |groups| == 0 then Some(0)
    else if groups[0].name != CONSUMER_GROUP then CountOutstanding(groups[1..])
    else if groups[0].lag.None? then None
    else Some(groups[0].lag.value + groups[0].pending)
  }

  /** The figure comes from the consumer group's own record: the first one that bears its name. */
  lemma {:induction false} OutstandingOfGroup(groups: seq<GroupInfo>, k: nat)
    requires k < |groups| && groups[k].name == CONSUMER_GROUP
    requires forall i :: 0 <= i < k ==> groups[i].name != CONSUMER_GROUP
    ensures CountOutstanding(groups) ==
            match groups[k].lag case None => None case Some(lag) => Some(lag + groups[k].pending)
  {
    if k > 0 {
      OutstandingOfGroup(groups[1..], k - 1);
    }
  }

  /** Nothing is outstanding in a stream that the group has not got. */
  lemma {:induction false} OutstandingOfNone(groups: seq<GroupInfo>)
    requires forall g :: g in groups ==> g.name != CONSUMER_GROUP
    ensures CountOutstanding(groups) == Some(0)
  {
    if |groups| > 0 {
      assert groups[0] in groups;
      OutstandingOfNone(groups[1..]);
    }
  }

  /** The ids of the candidates. */
  function Ids(hash: Payload -> string, candidates: seq<Candidate>): set<string> {
    set c | c in candidates :: DeriveJobId(hash, c)
  }

  lemma IdsAppend(hash: Payload -> string, candidates: seq<Candidate>, c: Candidate)
    ensures Ids(hash, candidates + [c]) == Ids(hash, candidates) + {DeriveJobId(hash, c)}
  {
    assert c in candidates + [c];
    assert forall d :: d in candidates + [c] <==> d in candidates || d == c;
  }

  /** The candidate asks for the same work as one of those. */
  ghost predicate Repeats(c: Candidate, earlier: seq<Candidate>) {
    exists e :: e in earlier && SameWork(e, c)
  }

  lemma RepeatedId(hash: Payload -> string, c: Candidate, earlier: seq<Candidate>)
    requires Injective(hash)
    ensures DeriveJobId(hash, c) in Ids(hash, earlier) <==> Repeats(c, earlier)
  {
    if DeriveJobId(hash, c) in Ids(hash, earlier) {
      var e :| e in earlier && DeriveJobId(hash, e) == DeriveJobId(hash, c);
      JobIdIff(hash, e, c);
    }
    if Repeats(c, earlier) {
      var e :| e in earlier && SameWork(e, c);
      JobIdIff(hash, e, c);
    }
  }

  class Submitter {
    const hash: Payload -> string
    const maxOutstanding: int
    var markers: set<string>
    var streams: map<Priority, seq<Fields>>

    /** The candidates enqueued so far. */
    ghost var enqueued: seq<Candidate>

    ghost predicate Valid()
      reads this
    {
      markers == Ids(hash, enqueued)
    }

    constructor (hash: Payload -> string, maxOutstanding: int)
      ensures Valid() && enqueued == []
      ensures this.hash == hash && this.maxOutstanding == maxOutstanding && markers == {} && streams == map[]
    {
      enqueued := [];
      this.hash := hash;
      this.maxOutstanding := maxOutstanding;
      markers := {};
      streams := map[];
    }

    function Stream(p: Priority): seq<Fields>
      reads this
    {
      if p in streams then streams[p] else []
    }

    /** SET NX: true for the first caller only. */
    method ClaimSubmissionMarker(id: string) returns (claimed: bool)
      modifies this`markers
      ensures claimed == (id !in old(markers))
      ensures markers == old(markers) + {id}
    {
      claimed := id !in markers;
      markers := markers + {id};
    }

    /**
     One submission. `outstanding` is what count_outstanding reports and `enqueueFails`
     whether the XADD raises. Only an enqueued submission leaves anything behind. If the hash
     does not collide, an admitted candidate is suppressed exactly when one that asks for the
     same work has been enqueued before.
     */
    method Submit(c: Candidate, outstanding: Option<nat>, enqueueFails: bool) returns (r: SubmissionResult)
      requires Valid()
      modifies this
      ensures Valid() && enqueued == if r.outcome == ENQUEUED then old(enqueued) + [c] else old(enqueued)
      ensures var admitted := Validates(c) && outstanding.Some? && outstanding.value < maxOutstanding;
              Injective(hash) ==> (r.outcome == DUPLICATE_SUPPRESSED <==> admitted && Repeats(c, old(enqueued)))
      ensures r.jobId == if Validates(c) then Some(DeriveJobId(hash, c)) else None
      ensures var id := DeriveJobId(hash, c);
              var admitted := Validates(c) && outstanding.Some? && outstanding.value < maxOutstanding;
              && (r.outcome == REJECTED_INVALID <==> !Validates(c))
              && (r.outcome == REJECTED_BACKPRESSURE <==> Validates(c) && !admitted)
              && (r.outcome == DUPLICATE_SUPPRESSED <==> admitted && id in old(markers))
              && (r.outcome == Raised <==> admitted && id !in old(markers) && enqueueFails)
              && (r.outcome == ENQUEUED <==> admitted && id !in old(markers) && !enqueueFails)
      ensures r.outcome == ENQUEUED ==>
                var id := DeriveJobId(hash, c);
                && markers == old(markers) + {id}
                && Stream(c.priority) == old(Stream(c.priority)) + [Print(JobFor(c, id))]
                && (forall p :: p != c.priority ==> Stream(p) == old(Stream(p)))
      ensures r.outcome != ENQUEUED ==> markers == old(markers) && streams == old(streams)
    {
      if Injective(hash) {
        RepeatedId(hash, c, enqueued);
      }
      IdsAppend(hash, enqueued, c);
      hide Ids, Validates, DeriveJobId, Repeats, Print, JobFor, Injective;
      if !Validates(c) {
        return SubmissionResult(REJECTED_INVALID, None);
      }
      var id := DeriveJobId(hash, c);
      if outstanding.None? || outstanding.value >= maxOutstanding {
        return SubmissionResult(REJECTED_BACKPRESSURE, Some(id));
      }
      var claimed := ClaimSubmissionMarker(id);
      if !claimed {
        assert markers == old(markers);
        return SubmissionResult(DUPLICATE_SUPPRESSED, Some(id));
      }
      if enqueueFails {
        markers := markers - {id};
        return SubmissionResult(Raised, Some(id));
      }
      enqueued := enqueued + [c];
      streams := streams[c.priority := Stream(c.priority) + [Print(JobFor(c, id))]];
      return SubmissionResult(ENQUEUED, Some(id));
    }
  }
}
