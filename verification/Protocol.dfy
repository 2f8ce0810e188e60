/**
 The Redis side of the job protocol: the structures the workers share, the five Lua
 scripts and the claim operations as functions on them, and the state machine whose
 steps any number of workers interleave.

 A stream entry is named by its position; the group's read position is `cursor`.
 Every Lua script is one atomic function guarded by the compare-and-set on `attempt`.
 */
module Protocol {
  import opened Wrappers
  import opened Jobs
  import Text

  /** What a worker sees when it parses an entry; `key` is where a malformed entry is reported. */
  datatype Entry = Valid(job: Job) | Malformed(key: string)

  datatype Status = Claimed | Completed | Rejected | RetryScheduled | Failed

  /** The per-job state hash. A field is None until some HSET has written it. */
  datatype StateHash = StateHash(
    status: Status,
    workerId: Option<string>,
    attempt: Option<nat>,
    reason: Option<string>,
    lastFailure: Option<string>,
    scheduledAt: Option<real>,
    nextAttemptAt: Option<real>,
    failureReason: Option<string>,
    failedAt: Option<real>,
    completedAt: Option<real>)

  datatype Decision = Match | NoMatch | ProcessingFailure

  /** What a handler concluded. */
  datatype HandlerResult = HandlerResult(
    decision: Decision,
    algorithm: string,
    startedAt: real,
    completedAt: real,
    confidence: Option<real>,
    summary: Option<string>,
    evidence: Option<string>)

  /** The result hash of a job. */
  datatype ResultRecord = ResultRecord(
    jobId: string,
    mediaEvidenceId: string,
    targetId: string,
    targetVersion: string,
    attempt: nat,
    workerId: string,
    result: HandlerResult,
    resultVersion: int)

  const RESULT_SCHEMA_VERSION := 1

  /** One entry of the results stream. */
  datatype Event = Event(
    jobId: string,
    mediaEvidenceId: string,
    targetId: string,
    attempt: nat,
    decision: Decision,
    resultVersion: int,
    workerId: string,
    completedAt: real)

  datatype Redis = Redis(
    stream: seq<Entry>,
    cursor: nat,
    pel: map<nat, string>,
    retry: map<Job, real>,
    state: map<string, StateHash>,
    results: map<string, ResultRecord>,
    events: seq<Event>,
    index: map<(string, string), map<string, real>>)

  /** A claim held by a worker: the entry, its job and the attempt number it was given. */
  datatype Claim = Claim(entry: nat, job: Job, attempt: nat, worker: string)

  /** How a handler ended: a value (or nothing), a transient failure or a permanent one. */
  datatype Verdict =
    | Returned(result: Option<HandlerResult>)
    | Transient(reason: string)
    | Permanent(reason: string)

  const EMPTY := Redis([], 0, map[], map[], map[], map[], [], map[])

  // ---------------------------------------------------------------------------
  // The state hash
  // ---------------------------------------------------------------------------

  function Lookup<V>(m: map<string, V>, id: string): Option<V> {
    if id in m then Some(m[id]) else None
  }

  function Blank(status: Status): StateHash {
    StateHash(status, None, None, None, None, None, None, None, None, None)
  }

  /** The attempt on record, 0 when there is none. */
  function Attempts(h: Option<StateHash>): nat {
    if h.Some? && h.value.attempt.Some? then h.value.attempt.value else 0
  }

  function HashClaimed(h: Option<StateHash>, worker: string, attempt: nat): StateHash {
    h.GetOr(Blank(Claimed)).(status := Claimed, workerId := Some(worker), attempt := Some(attempt))
  }

  function HashRejected(h: Option<StateHash>, reason: string): StateHash {
    h.GetOr(Blank(Rejected)).(status := Rejected, reason := Some(reason))
  }

  // ---------------------------------------------------------------------------
  // Claiming
  // ---------------------------------------------------------------------------

  const REJECTION := "invalid job entry"

  /** A malformed entry is reported under its key and acknowledged at once. */
  function Reject(r: Redis, e: nat, key: string): Redis {
    r.(state := r.state[key := HashRejected(Lookup(r.state, key), REJECTION)], pel := r.pel - {e})
  }

  /** The claim that taking entry `e` for `job` creates: the attempt after the one on record. */
  function NewClaim(r: Redis, e: nat, job: Job, worker: string): Claim {
    Claim(e, job, Attempts(Lookup(r.state, job.jobId)) + 1, worker)
  }

  function TakeEntry(r: Redis, e: nat, job: Job, worker: string): Redis {
    var c := NewClaim(r, e, job, worker);
    r.(pel := r.pel[e := worker],
       state := r.state[job.jobId := HashClaimed(Lookup(r.state, job.jobId), worker, c.attempt)])
  }

  /** XREADGROUP or XAUTOCLAIM alone: the entry is in the worker's hands, nothing is written. */
  function Handed(r: Redis, e: nat, worker: string): Redis {
    r.(pel := r.pel[e := worker])
  }

  /** XREADGROUP of the next undelivered entry, then parse, then reject or claim. */
  function ClaimNext(r: Redis, worker: string): Redis
    requires r.cursor < |r.stream|
  {
    var delivered := r.(cursor := r.cursor + 1);
    match r.stream[r.cursor]
    case Malformed(key) => Reject(delivered, r.cursor, key)
    case Valid(job) => TakeEntry(delivered, r.cursor, job, worker)
  }

  /** XAUTOCLAIM of one pending entry onto `worker`. */
  function Reclaim(r: Redis, e: nat, worker: string): Redis
    requires e < |r.stream|
  {
    match r.stream[e]
    case Malformed(key) => Reject(r, e, key)
    case Valid(job) => TakeEntry(r, e, job, worker)
  }

  // ---------------------------------------------------------------------------
  // The Lua scripts
  // ---------------------------------------------------------------------------

  /** The compare-and-set every finalising script starts with. */
  predicate IsCurrent(r: Redis, c: Claim) {
    c.job.jobId in r.state && r.state[c.job.jobId].attempt == Some(c.attempt)
  }

  /** HSET of the state hash and XACK of the claimed entry, once the claim is known current. */
  function Settle(r: Redis, c: Claim, h: StateHash): Redis {
    r.(state := r.state[c.job.jobId := h], pel := r.pel - {c.entry})
  }

  function CompleteIfCurrent(r: Redis, c: Claim, now: real): Redis {
    if !IsCurrent(r, c) then r
    else Settle(r, c, r.state[c.job.jobId].(status := Completed, completedAt := Some(now)))
  }

  function ScheduleRetryIfCurrent(r: Redis, c: Claim, now: real, due: real, reason: string): Redis {
    if !IsCurrent(r, c) then r
    else
      Settle(r, c, r.state[c.job.jobId].(status := RetryScheduled, lastFailure := Some(reason),
                                         scheduledAt := Some(now), nextAttemptAt := Some(due)))
      .(retry := r.retry[c.job := due])
  }

  function FailIfCurrent(r: Redis, c: Claim, now: real, reason: string): Redis {
    if !IsCurrent(r, c) then r
    else Settle(r, c, r.state[c.job.jobId].(status := Failed, failureReason := Some(reason), failedAt := Some(now)))
  }

  function RecordOf(c: Claim, result: HandlerResult): ResultRecord {
    ResultRecord(c.job.jobId, c.job.mediaEvidenceId, c.job.targetId, c.job.targetVersion,
                 c.attempt, c.worker, result, RESULT_SCHEMA_VERSION)
  }

  function EventOf(c: Claim, result: HandlerResult): Event {
    Event(c.job.jobId, c.job.mediaEvidenceId, c.job.targetId, c.attempt, result.decision,
          RESULT_SCHEMA_VERSION, c.worker, result.completedAt)
  }

  /** A text field that is empty is not written. */
  function NonEmpty(s: Option<string>): Option<string> {
    if s == Some("") then None else s
  }

  function OrElse<T>(a: Option<T>, b: Option<T>): Option<T> {
    if a.Some? then a else b
  }

  /** HSET of a record's fields over a possibly existing hash: an optional field that the
      new record does not write keeps its old value. */
  function HSetRecord(old_: Option<ResultRecord>, rec: ResultRecord): ResultRecord {
    var before := if old_.Some? then old_.value.result else rec.result.(confidence := None, summary := None, evidence := None);
    rec.(result := rec.result.(
      confidence := OrElse(rec.result.confidence, before.confidence),
      summary := OrElse(NonEmpty(rec.result.summary), before.summary),
      evidence := OrElse(NonEmpty(rec.result.evidence), before.evidence)))
  }

  /** ZADD of a job into the match index of its target and version. */
  function AddMatch(index: map<(string, string), map<string, real>>, job: Job, score: real): map<(string, string), map<string, real>> {
    var key := (job.targetId, job.targetVersion);
    index[key := (if key in index then index[key] else map[])[job.jobId := score]]
  }

  function CommitResultIfCurrent(r: Redis, c: Claim, result: HandlerResult): Redis {
    var id := c.job.jobId;
    if !IsCurrent(r, c) then r
    else
      Settle(r, c, r.state[id].(status := Completed, completedAt := Some(result.completedAt)))
      .(results := r.results[id := HSetRecord(Lookup(r.results, id), RecordOf(c, result))],
        events := r.events + [EventOf(c, result)],
        index := if result.decision == Match then AddMatch(r.index, c.job, result.completedAt) else r.index)
  }

  /** ZREM then XADD; a member that is already gone is not promoted again. */
  function PromoteRetry(r: Redis, job: Job): Redis {
    if job !in r.retry then r
    else r.(retry := r.retry - {job}, stream := r.stream + [Valid(job)])
  }

  function ExhaustedReason(job: Job, reason: string): string {
    "max_attempts (" + Text.Decimal(job.maxAttempts) + ") exhausted: " + reason
  }

  /** What `process_claim` runs once the handler has ended. */
  function Finalise(r: Redis, c: Claim, verdict: Verdict, now: real, due: real): Redis {
    match verdict
    case Returned(None) => CompleteIfCurrent(r, c, now)
    case Returned(Some(result)) => CommitResultIfCurrent(r, c, result)
    case Transient(reason) =>
      if c.attempt >= c.job.maxAttempts then FailIfCurrent(r, c, now, ExhaustedReason(c.job, reason))
      else ScheduleRetryIfCurrent(r, c, now, due, reason)
    case Permanent(reason) => FailIfCurrent(r, c, now, reason)
  }

  // ---------------------------------------------------------------------------
  // The state machine
  // ---------------------------------------------------------------------------

  /** Redis and the claims the workers hold and have not finalised. */
  datatype System = System(redis: Redis, claims: set<Claim>)

  const INITIAL := System(EMPTY, {})

  datatype Step =
    | Produce(entry: Entry)
    | Claiming(worker: string)
    | Reclaiming(pending: nat, worker: string)
    | Delivering(to: string)
    | Passing(passed: nat, to: string)
    | Finalising(claim: Claim, verdict: Verdict, now: real, due: real)
    | Promoting(job: Job)
    | Crash(lost: Claim)

  predicate IsEntry(r: Redis, e: nat, id: string) {
    e < |r.stream| && r.stream[e].Valid? && r.stream[e].job.jobId == id
  }

  /** `id` belongs to a well-formed job that has been produced. */
  predicate Known(r: Redis, id: string) {
    exists e: nat | e < |r.stream| :: IsEntry(r, e, id)
  }

  /** `id` is the key under which some malformed entry is reported. */
  predicate Junk(r: Redis, id: string) {
    exists e: nat | e < |r.stream| :: r.stream[e] == Malformed(id)
  }

  /**
   When a step may happen. The guards of Produce are the protocol's assumptions about
   its producers: a job id is produced once, and a malformed entry does not carry the id
   of a well-formed job. A claim is finalised at most once, and a crash loses it.
   A pending entry may be reclaimed at any time. Delivering and Passing are a delivery and a
   takeover whose worker has not got as far as `mark_claimed` or `mark_rejected`, and may never.
   */
  predicate Enabled(s: System, step: Step) {
    match step
    case Produce(Valid(job)) => job.maxAttempts >= 1 && !Known(s.redis, job.jobId) && !Junk(s.redis, job.jobId)
    case Produce(Malformed(key)) => !Known(s.redis, key)
    case Claiming(_) => s.redis.cursor < |s.redis.stream|
    case Reclaiming(e, _) => e in s.redis.pel && e < |s.redis.stream|
    case Delivering(_) => s.redis.cursor < |s.redis.stream|
    case Passing(e, _) => e in s.redis.pel
    case Finalising(c, _, _, _) => c in s.claims
    case Promoting(_) => true
    case Crash(c) => c in s.claims
  }

  /** The claim a step creates, if any. */
  function Created(s: System, step: Step): Option<Claim>
    requires Enabled(s, step)
  {
    match step
    case Claiming(worker) =>
      (match s.redis.stream[s.redis.cursor]
       case Valid(job) => Some(NewClaim(s.redis, s.redis.cursor, job, worker))
       case Malformed(_) => None)
    case Reclaiming(e, worker) =>
      (match s.redis.stream[e]
       case Valid(job) => Some(NewClaim(s.redis, e, job, worker))
       case Malformed(_) => None)
    case _ => None
  }

  function Next(s: System, step: Step): System
    requires Enabled(s, step)
  {
    var created := match Created(s, step) case Some(c) => {c} case None => {};
    match step
    case Produce(entry) => s.(redis := s.redis.(stream := s.redis.stream + [entry]))
    case Claiming(worker) => System(ClaimNext(s.redis, worker), s.claims + created)
    case Reclaiming(e, worker) => System(Reclaim(s.redis, e, worker), s.claims + created)
    case Delivering(worker) => s.(redis := Handed(s.redis.(cursor := s.redis.cursor + 1), s.redis.cursor, worker))
    case Passing(e, worker) => s.(redis := Handed(s.redis, e, worker))
    case Finalising(c, verdict, now, due) => System(Finalise(s.redis, c, verdict, now, due), s.claims - {c})
    case Promoting(job) => s.(redis := PromoteRetry(s.redis, job))
    case Crash(c) => s.(claims := s.claims - {c})
  }

  /** `steps` can be taken one after the other from `s`. */
  predicate Feasible(s: System, steps: seq<Step>)
    decreases |steps|, 0
  {
    |steps| == 0 ||
    (Feasible(s, steps[..|steps| - 1]) && Enabled(After(s, steps[..|steps| - 1]), steps[|steps| - 1]))
  }

  /** Where a run ends. */
  function After(s: System, steps: seq<Step>): System
    requires Feasible(s, steps)
    decreases |steps|, 1
  {
    if |steps| == 0 then s
    else Next(After(s, steps[..|steps| - 1]), steps[|steps| - 1])
  }
}
