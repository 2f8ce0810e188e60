/**
 The inductive invariant of the protocol, stated job by job: `View` projects a system onto
 one job id, `Good` says what a projection can look like, and every step leaves all
 projections but one untouched and keeps that one good.
 */
module ProtocolInvariant {
  import opened Wrappers
  import opened Jobs
  import opened Protocol

  // ---------------------------------------------------------------------------
  // Projections
  // ---------------------------------------------------------------------------

  /** The entries of job `id` not delivered yet. */
  ghost function Queued(r: Redis, id: string): set<nat> {
    set e: nat | r.cursor <= e < |r.stream| && IsEntry(r, e, id)
  }

  /** The entries of job `id` in the pending list. */
  ghost function Pending(r: Redis, id: string): set<nat> {
    set e: nat | e in r.pel && IsEntry(r, e, id)
  }

  /** The retries of job `id` waiting in the ZSET. */
  ghost function Delayed(r: Redis, id: string): set<Job> {
    set j: Job | j in r.retry && j.jobId == id
  }

  ghost function JobsOf(r: Redis, id: string): set<Job> {
    set e: nat | e < |r.stream| && IsEntry(r, e, id) :: r.stream[e].job
  }

  /** Where the match index lists job `id`, with the score. */
  ghost function MatchesOf(r: Redis, id: string): set<((string, string), real)> {
    set key | key in r.index && id in r.index[key] :: (key, r.index[key][id])
  }

  ghost function ClaimsOf(s: System, id: string): set<Claim> {
    set c | c in s.claims && c.job.jobId == id
  }

  predicate EntryOf(entry: Entry, id: string) {
    entry.Valid? && entry.job.jobId == id
  }

  /** How many of the entries are of job `id`. */
  function Count(stream: seq<Entry>, id: string): nat {
    if |stream| == 0 then 0
    else Count(stream[..|stream| - 1], id) + (if EntryOf(stream[|stream| - 1], id) then 1 else 0)
  }

  function EventsOf(events: seq<Event>, id: string): seq<Event> {
    if |events| == 0 then []
    else EventsOf(events[..|events| - 1], id) + (if events[|events| - 1].jobId == id then [events[|events| - 1]] else [])
  }

  datatype JobView = JobView(
    jobs: set<Job>,
    queued: set<nat>,
    pending: set<nat>,
    delayed: set<Job>,
    hash: Option<StateHash>,
    result: Option<ResultRecord>,
    events: seq<Event>,
    matches: set<((string, string), real)>,
    claims: set<Claim>,
    entries: nat,
    delivered: nat,
    junk: bool)

  /** Everything a system holds about one job id. */
  ghost function View(s: System, id: string): JobView
    requires s.redis.cursor <= |s.redis.stream|
  {
    var r := s.redis;
    JobView(JobsOf(r, id), Queued(r, id), Pending(r, id), Delayed(r, id), Lookup(r.state, id), Lookup(r.results, id),
            EventsOf(r.events, id), MatchesOf(r, id), ClaimsOf(s, id),
            Count(r.stream, id), Count(r.stream[..r.cursor], id), Junk(r, id))
  }

  predicate HasStatus(h: Option<StateHash>, status: Status) {
    h.Some? && h.value.status == status
  }

  predicate Settled(h: Option<StateHash>) {
    HasStatus(h, Completed) || HasStatus(h, Failed)
  }

  /** How many places hold the job: stream, pending list, retry ZSET, or a terminal status. */
  ghost function Tokens(v: JobView): nat {
    |v.queued| + |v.pending| + |v.delayed| + (if Settled(v.hash) then 1 else 0)
  }

  // ---------------------------------------------------------------------------
  // The invariant
  // ---------------------------------------------------------------------------

  /** Nothing is known about the id, except perhaps a rejection. */
  ghost predicate Unborn(v: JobView) {
    && v.jobs == {} && v.queued == {} && v.pending == {} && v.delayed == {}
    && v.result == None && v.events == [] && v.matches == {} && v.claims == {}
    && v.entries == 0 && v.delivered == 0
    && (v.hash.Some? ==> v.junk && v.hash.value.status == Rejected && v.hash.value.attempt == None)
  }

  /** Where a live job is determines its status. */
  ghost predicate PlaceAgrees(v: JobView) {
    && Tokens(v) == 1
    && v.delivered + |v.queued| == v.entries
    && (v.hash.None? ==> v.entries == 1 && |v.queued| + |v.pending| == 1)
    && (v.hash.Some? ==> v.hash.value.attempt.Some? && v.hash.value.status != Rejected)
    && (HasStatus(v.hash, Claimed) ==> |v.pending| == 1)
  }

  /** A claim with the attempt on record is the one that holds the pending entry. */
  ghost predicate ClaimsAgree(v: JobView, j: Job) {
    && (forall c :: c in v.claims ==> c.job == j && 1 <= c.attempt <= Attempts(v.hash))
    && (forall c :: c in v.claims && c.attempt == Attempts(v.hash) ==>
          HasStatus(v.hash, Claimed) && v.pending == {c.entry} && v.hash.value.workerId == Some(c.worker))
    && (forall c, d :: c in v.claims && d in v.claims && c.attempt == d.attempt ==> c == d)
  }

  /** The event that announces a stored result. */
  function Announcement(rec: ResultRecord): Event {
    Event(rec.jobId, rec.mediaEvidenceId, rec.targetId, rec.attempt, rec.result.decision,
          rec.resultVersion, rec.workerId, rec.result.completedAt)
  }

  ghost predicate ResultAgrees(v: JobView, j: Job) {
    match v.result
    case None => v.events == [] && v.matches == {}
    case Some(rec) =>
      && HasStatus(v.hash, Completed)
      && rec.attempt == Attempts(v.hash)
      && rec.jobId == j.jobId && rec.targetId == j.targetId && rec.targetVersion == j.targetVersion
      && v.events == [Announcement(rec)]
      && v.matches == if rec.result.decision == Match then {((j.targetId, j.targetVersion), rec.result.completedAt)} else {}
  }

  /** 1 while the job's entry is in the hands of a worker that has not claimed it. */
  ghost function Unclaimed(v: JobView): nat {
    if v.pending != {} && !HasStatus(v.hash, Claimed) then 1 else 0
  }

  ghost predicate WithinBudget(v: JobView, j: Job) {
    && j.maxAttempts >= 1
    && v.delivered <= Attempts(v.hash) + Unclaimed(v)
    && v.entries + |v.delayed| <= j.maxAttempts
    && v.delayed <= {j}
  }

  ghost predicate Live(v: JobView, j: Job) {
    && v.jobs == {j} && !v.junk
    && PlaceAgrees(v) && ClaimsAgree(v, j) && ResultAgrees(v, j) && WithinBudget(v, j)
  }

  ghost predicate Good(v: JobView) {
    Unborn(v) || exists j :: j in v.jobs && Live(v, j)
  }

  ghost predicate Shape(r: Redis) {
    && r.cursor <= |r.stream|
    && (forall e :: e in r.pel ==> e < r.cursor)
  }

  ghost predicate Inv(s: System) {
    && Shape(s.redis)
    && (forall id: string :: Good(View(s, id)))
  }

  /** The job of a known id. */
  ghost function TheJob(s: System, id: string): (j: Job)
    requires Inv(s)
    requires JobsOf(s.redis, id) != {}
    ensures Live(View(s, id), j)
    ensures j.jobId == id
  {
    assert Good(View(s, id));
    var j :| j in View(s, id).jobs && Live(View(s, id), j);
    j
  }

  lemma KnownJob(r: Redis, id: string)
    ensures Known(r, id) <==> JobsOf(r, id) != {}
  {
    if Known(r, id) {
      var e: nat :| e < |r.stream| && IsEntry(r, e, id);
      assert r.stream[e].job in JobsOf(r, id);
    }
    if JobsOf(r, id) != {} {
      var j :| j in JobsOf(r, id);
    }
  }

  lemma EntryJob(s: System, e: nat, id: string)
    requires Inv(s)
    requires IsEntry(s.redis, e, id)
    ensures JobsOf(s.redis, id) == {s.redis.stream[e].job}
    ensures Live(View(s, id), s.redis.stream[e].job)
  {
    assert s.redis.stream[e].job in JobsOf(s.redis, id);
    var j := TheJob(s, id);
  }

  lemma One<T>(a: set<T>, x: T)
    requires x in a && |a| == 1
    ensures a == {x}
  {
    assert |a - {x}| == 0;
  }

  // ---------------------------------------------------------------------------
  // Counting lemmas
  // ---------------------------------------------------------------------------

  lemma CountAppend(stream: seq<Entry>, entry: Entry, id: string)
    ensures Count(stream + [entry], id) == Count(stream, id) + (if EntryOf(entry, id) then 1 else 0)
  {
    assert (stream + [entry])[..|stream|] == stream;
  }

  lemma CountStep(stream: seq<Entry>, k: nat, id: string)
    requires k < |stream|
    ensures Count(stream[..k + 1], id) == Count(stream[..k], id) + (if EntryOf(stream[k], id) then 1 else 0)
  {
    assert stream[..k + 1] == stream[..k] + [stream[k]];
    CountAppend(stream[..k], stream[k], id);
  }

  lemma EventsAppend(events: seq<Event>, ev: Event, id: string)
    ensures EventsOf(events + [ev], id) == EventsOf(events, id) + (if ev.jobId == id then [ev] else [])
  {
    assert (events + [ev])[..|events|] == events;
  }

  // ---------------------------------------------------------------------------
  // Appending an entry (produce, promote)
  // ---------------------------------------------------------------------------

  function Appended(r: Redis, entry: Entry): Redis {
    r.(stream := r.stream + [entry])
  }

  lemma AppendOther(s: System, entry: Entry, id: string)
    requires Shape(s.redis)
    requires entry.Valid? ==> entry.job.jobId != id
    requires entry.Malformed? ==> entry.key != id
    ensures View(s.(redis := Appended(s.redis, entry)), id) == View(s, id)
  {
    var r, r' := s.redis, Appended(s.redis, entry);
    CountAppend(r.stream, entry, id);
    assert r'.stream[..r.cursor] == r.stream[..r.cursor];
    forall e: nat ensures IsEntry(r', e, id) == IsEntry(r, e, id) {}
    assert JobsOf(r', id) == JobsOf(r, id);
    assert Queued(r', id) == Queued(r, id);
    assert Pending(r', id) == Pending(r, id);
    forall e: nat | e < |r.stream| ensures r'.stream[e] == r.stream[e] {}
    assert Junk(r', id) <==> Junk(r, id);
  }

  lemma AppendJunk(s: System, key: string)
    requires Inv(s)
    requires !Known(s.redis, key)
    ensures Good(View(s.(redis := Appended(s.redis, Malformed(key))), key))
  {
    var entry := Malformed(key);
    var r, r' := s.redis, Appended(s.redis, entry);
    KnownJob(r, key);
    assert Good(View(s, key));
    CountAppend(r.stream, entry, key);
    assert r'.stream[..r.cursor] == r.stream[..r.cursor];
    forall e: nat ensures !IsEntry(r', e, key) {
      assert e < |r.stream| ==> r'.stream[e] == r.stream[e] && !IsEntry(r, e, key);
    }
    assert r'.stream[|r.stream|] == Malformed(key);
    assert Unborn(View(s.(redis := r'), key));
  }

  lemma AppendedEntry(s: System, j: Job)
    requires Shape(s.redis)
    ensures var r' := Appended(s.redis, Valid(j)); var id := j.jobId;
            var v, v' := View(s, id), View(s.(redis := r'), id);
            v' == v.(jobs := v.jobs + {j}, queued := v.queued + {|s.redis.stream|}, entries := v.entries + 1)
  {
    var id := j.jobId;
    var r, r' := s.redis, Appended(s.redis, Valid(j));
    CountAppend(r.stream, Valid(j), id);
    assert r'.stream[..r.cursor] == r.stream[..r.cursor];
    assert IsEntry(r', |r.stream|, id);
    forall e: nat | e < |r.stream| ensures IsEntry(r', e, id) == IsEntry(r, e, id) && r'.stream[e] == r.stream[e] {}
    assert Queued(r', id) == Queued(r, id) + {|r.stream|};
    assert Pending(r', id) == Pending(r, id);
    assert JobsOf(r', id) == JobsOf(r, id) + {j} by {
      assert r'.stream[|r.stream|].job == j;
    }
    assert Junk(r', id) <==> Junk(r, id);
  }

  lemma ProduceSame(s: System, job: Job)
    requires Inv(s) && Enabled(s, Produce(Valid(job)))
    ensures Good(View(s.(redis := Appended(s.redis, Valid(job))), job.jobId))
  {
    var id := job.jobId;
    assert Good(View(s, id));
    KnownJob(s.redis, id);
    AppendedEntry(s, job);
    assert View(s, id).hash.None?;
    var v' := View(s.(redis := Appended(s.redis, Valid(job))), id);
    hide View, Inv, Enabled;
    assert Live(v', job);
  }

  lemma ProduceKeeps(s: System, entry: Entry)
    requires Inv(s) && Enabled(s, Produce(entry))
    ensures Inv(Next(s, Produce(entry)))
  {
    var s' := Next(s, Produce(entry));
    assert s' == s.(redis := Appended(s.redis, entry));
    forall id: string ensures Good(View(s', id)) {
      assert Good(View(s, id));
      if entry == Malformed(id) {
        AppendJunk(s, id);
      } else if entry.Valid? && entry.job.jobId == id {
        ProduceSame(s, entry.job);
      } else {
        AppendOther(s, entry, id);
      }
    }
  }

  lemma ViewPromoted(v: JobView, j: Job, e: nat)
    requires Live(v, j) && v.delayed == {j}
    ensures Live(v.(delayed := {}, jobs := v.jobs + {j}, queued := v.queued + {e}, entries := v.entries + 1), j)
  {
    assert v.queued == {} && v.pending == {};
    assert v.queued + {e} == {e};
    assert v.jobs + {j} == {j};
  }

  /** The system whose retry ZSET has lost `job`. */
  ghost function Removed(s: System, job: Job): System {
    s.(redis := s.redis.(retry := s.redis.retry - {job}))
  }

  lemma RemovedView(s: System, job: Job, id: string)
    requires Shape(s.redis)
    ensures View(Removed(s, job), id) == View(s, id).(delayed := View(s, id).delayed - {job})
  {
    var r' := Removed(s, job).redis;
    assert Delayed(r', id) == Delayed(s.redis, id) - {job};
    assert Pending(r', id) == Pending(s.redis, id);
    assert Queued(r', id) == Queued(s.redis, id);
    assert JobsOf(r', id) == JobsOf(s.redis, id);
  }

  /** What a retry waiting in the ZSET says about its job. */
  lemma DelayedJob(s: System, job: Job)
    requires Inv(s) && job in s.redis.retry
    ensures Live(View(s, job.jobId), job) && View(s, job.jobId).delayed == {job}
  {
    var v := View(s, job.jobId);
    assert Good(v);
    assert job in v.delayed;
    var j :| j in v.jobs && Live(v, j);
  }

  lemma PromoteSame(s: System, job: Job)
    requires Inv(s) && job in s.redis.retry
    ensures Good(View(Next(s, Promoting(job)), job.jobId))
  {
    var id := job.jobId;
    var mid := Removed(s, job);
    assert Next(s, Promoting(job)) == mid.(redis := Appended(mid.redis, Valid(job)));
    DelayedJob(s, job);
    RemovedView(s, job, id);
    assert View(s, id).delayed - {job} == {};
    AppendedEntry(mid, job);
    ViewPromoted(View(s, id), job, |s.redis.stream|);
    assert job in View(Next(s, Promoting(job)), id).jobs;
  }

  lemma PromoteOther(s: System, job: Job, id: string)
    requires Inv(s) && id != job.jobId
    ensures View(Next(s, Promoting(job)), id) == View(s, id)
  {
    if job in s.redis.retry {
      var mid := Removed(s, job);
      assert Next(s, Promoting(job)) == mid.(redis := Appended(mid.redis, Valid(job)));
      RemovedView(s, job, id);
      AppendOther(mid, Valid(job), id);
      assert View(s, id).delayed - {job} == View(s, id).delayed;
    }
  }

  lemma PromoteKeeps(s: System, job: Job)
    requires Inv(s)
    ensures Inv(Next(s, Promoting(job)))
  {
    if job in s.redis.retry {
      forall id: string ensures Good(View(Next(s, Promoting(job)), id)) {
        if id == job.jobId {
          PromoteSame(s, job);
        } else {
          assert Good(View(s, id));
          PromoteOther(s, job, id);
        }
      }
    }
  }

  // ---------------------------------------------------------------------------
  // Claims and rejections
  // ---------------------------------------------------------------------------

  /** The system in which entry `e` has just been taken by `worker`. */
  ghost function Taken(s: System, e: nat, job: Job, worker: string): System {
    System(TakeEntry(s.redis, e, job, worker), s.claims + {NewClaim(s.redis, e, job, worker)})
  }

  lemma TakeOther(s: System, e: nat, job: Job, worker: string, id: string)
    requires Shape(s.redis) && e < |s.redis.stream| && s.redis.stream[e] == Valid(job)
    requires id != job.jobId
    ensures View(Taken(s, e, job, worker), id) == View(s, id)
  {
    var s' := Taken(s, e, job, worker);
    assert Pending(s'.redis, id) == Pending(s.redis, id);
    assert ClaimsOf(s', id) == ClaimsOf(s, id);
  }

  lemma TakeSame(s: System, e: nat, job: Job, worker: string)
    requires Shape(s.redis) && e < |s.redis.stream| && s.redis.stream[e] == Valid(job)
    ensures var id := job.jobId; var v := View(s, id); var c := NewClaim(s.redis, e, job, worker);
            View(Taken(s, e, job, worker), id) == Bumped(v, e, worker, c)
  {
    var id := job.jobId;
    var s' := Taken(s, e, job, worker);
    assert Pending(s'.redis, id) == Pending(s.redis, id) + {e};
    assert ClaimsOf(s', id) == ClaimsOf(s, id) + {NewClaim(s.redis, e, job, worker)};
  }

  /** A view in which a worker has just been given the next attempt on entry `e`. */
  ghost function Bumped(v: JobView, e: nat, worker: string, c: Claim): JobView {
    v.(pending := v.pending + {e}, hash := Some(HashClaimed(v.hash, worker, Attempts(v.hash) + 1)), claims := v.claims + {c})
  }

  lemma ViewReclaimed(v: JobView, j: Job, e: nat, worker: string)
    requires Live(v, j) && e in v.pending
    ensures Live(Bumped(v, e, worker, Claim(e, j, Attempts(v.hash) + 1, worker)), j)
  {
    One(v.pending, e);
    assert v.pending + {e} == v.pending;
  }

  lemma ViewClaimed(v: JobView, j: Job, e: nat, worker: string)
    requires Live(v, j) && e in v.queued
    ensures Live(Bumped(v.(queued := v.queued - {e}, delivered := v.delivered + 1), e, worker,
                        Claim(e, j, Attempts(v.hash) + 1, worker)), j)
  {
    One(v.queued, e);
    assert v.queued - {e} == {};
    assert v.pending == {} && v.pending + {e} == {e};
  }

  lemma ReclaimKeeps(s: System, e: nat, worker: string)
    requires Inv(s) && Enabled(s, Reclaiming(e, worker))
    ensures Inv(Next(s, Reclaiming(e, worker)))
  {
    var s' := Next(s, Reclaiming(e, worker));
    match s.redis.stream[e]
    case Valid(job) =>
      assert s' == Taken(s, e, job, worker);
      forall id: string ensures Good(View(s', id)) {
        if id == job.jobId {
          EntryJob(s, e, id);
          TakeSame(s, e, job, worker);
          ViewReclaimed(View(s, id), job, e, worker);
          assert job in View(s', id).jobs;
        } else {
          assert Good(View(s, id));
          TakeOther(s, e, job, worker, id);
        }
      }
    case Malformed(key) =>
      RejectKeeps(s, e, key);
      assert s' == s.(redis := Reject(s.redis, e, key));
  }

  lemma RejectKeeps(s: System, e: nat, key: string)
    requires Inv(s) && e < |s.redis.stream| && s.redis.stream[e] == Malformed(key)
    ensures Inv(s.(redis := Reject(s.redis, e, key)))
  {
    var s' := s.(redis := Reject(s.redis, e, key));
    assert Junk(s.redis, key);
    forall id: string ensures Good(View(s', id)) {
      assert Good(View(s, id));
      assert Pending(s'.redis, id) == Pending(s.redis, id);
      assert Queued(s'.redis, id) == Queued(s.redis, id);
      assert JobsOf(s'.redis, id) == JobsOf(s.redis, id);
      if id == key {
        assert View(s, id).junk;
        assert Unborn(View(s', id));
      } else {
        assert View(s', id) == View(s, id);
      }
    }
  }

  /** Moving the read position past entry `e` takes it out of the queue of its job. */
  lemma Deliver(s: System, id: string)
    requires Inv(s) && s.redis.cursor < |s.redis.stream|
    ensures var e := s.redis.cursor; var v := View(s, id);
            var mine := EntryOf(s.redis.stream[e], id);
            View(Delivered(s), id) ==
            v.(queued := v.queued - {e}, delivered := v.delivered + (if mine then 1 else 0))
  {
    var e := s.redis.cursor;
    var r' := s.redis.(cursor := e + 1);
    CountStep(s.redis.stream, e, id);
    assert Queued(r', id) == Queued(s.redis, id) - {e};
    assert Pending(r', id) == Pending(s.redis, id);
    assert JobsOf(r', id) == JobsOf(s.redis, id);
  }

  /** The system whose read position has moved past the next entry. */
  ghost function Delivered(s: System): System {
    s.(redis := s.redis.(cursor := s.redis.cursor + 1))
  }

  lemma ViewDelivered(v: JobView, j: Job, e: nat)
    requires Live(v, j) && e in v.queued
    ensures Live(v.(queued := v.queued - {e}, delivered := v.delivered + 1, pending := v.pending + {e}), j)
  {
    One(v.queued, e);
    assert v.queued - {e} == {};
    assert v.pending == {} && v.pending + {e} == {e};
  }

  /** Handing an entry to a worker adds it to the pending entries of its job, if it is not one already. */
  lemma HandedView(s: System, e: nat, worker: string, id: string)
    requires Shape(s.redis) && e < s.redis.cursor
    ensures View(s.(redis := Handed(s.redis, e, worker)), id) ==
            View(s, id).(pending := View(s, id).pending + (if IsEntry(s.redis, e, id) then {e} else {}))
  {
    var r' := Handed(s.redis, e, worker);
    assert Pending(r', id) == Pending(s.redis, id) + (if IsEntry(s.redis, e, id) then {e} else {});
    assert Queued(r', id) == Queued(s.redis, id);
    assert JobsOf(r', id) == JobsOf(s.redis, id);
  }

  /** A delivery without a claim moves the entry of its job and touches no other. */
  lemma DeliveredView(s: System, worker: string, id: string)
    requires Inv(s) && s.redis.cursor < |s.redis.stream|
    ensures var e := s.redis.cursor; var v := View(s, id);
            View(Next(s, Delivering(worker)), id) ==
            if EntryOf(s.redis.stream[e], id)
            then v.(queued := v.queued - {e}, delivered := v.delivered + 1, pending := v.pending + {e}) else v
  {
    var e := s.redis.cursor;
    var mid := Delivered(s);
    assert Next(s, Delivering(worker)) == mid.(redis := Handed(mid.redis, e, worker));
    HandedView(mid, e, worker, id);
    if EntryOf(s.redis.stream[e], id) {
      Deliver(s, id);
    } else {
      DeliverOther(s, id);
    }
  }

  lemma DeliverySame(s: System, worker: string, job: Job)
    requires Inv(s) && s.redis.cursor < |s.redis.stream| && s.redis.stream[s.redis.cursor] == Valid(job)
    ensures Good(View(Next(s, Delivering(worker)), job.jobId))
  {
    var e, v := s.redis.cursor, View(s, job.jobId);
    EntryJob(s, e, job.jobId);
    assert e in v.queued;
    ViewDelivered(v, job, e);
    DeliveredView(s, worker, job.jobId);
    hide Live, Inv, View, Next, Unborn;
    var v' := v.(queued := v.queued - {e}, delivered := v.delivered + 1, pending := v.pending + {e});
    assert Live(v', job) && job in v'.jobs;
  }

  lemma DeliveryKeeps(s: System, worker: string)
    requires Inv(s) && Enabled(s, Delivering(worker))
    ensures Inv(Next(s, Delivering(worker)))
  {
    var entry := s.redis.stream[s.redis.cursor];
    forall id: string ensures Good(View(Next(s, Delivering(worker)), id)) {
      assert Good(View(s, id));
      if EntryOf(entry, id) {
        DeliverySame(s, worker, entry.job);
      } else {
        DeliveredView(s, worker, id);
      }
    }
  }

  /** Which worker holds a pending entry is visible to no job. */
  lemma PassingView(s: System, e: nat, worker: string, id: string)
    requires Shape(s.redis) && e in s.redis.pel
    ensures View(Next(s, Passing(e, worker)), id) == View(s, id)
  {
    HandedView(s, e, worker, id);
    assert IsEntry(s.redis, e, id) ==> e in View(s, id).pending;
  }

  lemma PassingKeeps(s: System, e: nat, worker: string)
    requires Inv(s) && Enabled(s, Passing(e, worker))
    ensures Inv(Next(s, Passing(e, worker)))
  {
    forall id: string ensures Good(View(Next(s, Passing(e, worker)), id)) {
      assert Good(View(s, id));
      PassingView(s, e, worker, id);
    }
  }

  lemma ClaimIsTake(s: System, worker: string, job: Job)
    requires Enabled(s, Claiming(worker)) && s.redis.stream[s.redis.cursor] == Valid(job)
    ensures Next(s, Claiming(worker)) == Taken(Delivered(s), s.redis.cursor, job, worker)
  {
  }

  lemma ClaimSameView(s: System, worker: string, job: Job)
    requires Inv(s) && Enabled(s, Claiming(worker)) && s.redis.stream[s.redis.cursor] == Valid(job)
    ensures var v, e := View(s, job.jobId), s.redis.cursor;
            View(Next(s, Claiming(worker)), job.jobId) ==
            Bumped(v.(queued := v.queued - {e}, delivered := v.delivered + 1), e, worker,
                   Claim(e, job, Attempts(v.hash) + 1, worker))
  {
    var e := s.redis.cursor;
    ClaimIsTake(s, worker, job);
    Deliver(s, job.jobId);
    TakeSame(Delivered(s), e, job, worker);
  }

  lemma ClaimSame(s: System, worker: string, job: Job)
    requires Inv(s) && Enabled(s, Claiming(worker)) && s.redis.stream[s.redis.cursor] == Valid(job)
    ensures Good(View(Next(s, Claiming(worker)), job.jobId))
  {
    var e := s.redis.cursor;
    var v := View(s, job.jobId);
    EntryJob(s, e, job.jobId);
    assert e in v.queued;
    ViewClaimed(v, job, e, worker);
    ClaimSameView(s, worker, job);
    var v' := View(Next(s, Claiming(worker)), job.jobId);
    assert Live(v', job) && job in v'.jobs;
  }

  lemma DeliverOther(s: System, id: string)
    requires Inv(s) && s.redis.cursor < |s.redis.stream|
    requires !EntryOf(s.redis.stream[s.redis.cursor], id)
    ensures View(Delivered(s), id) == View(s, id)
  {
    Deliver(s, id);
    assert s.redis.cursor !in View(s, id).queued;
    assert View(s, id).queued - {s.redis.cursor} == View(s, id).queued;
  }

  lemma ClaimOther(s: System, worker: string, job: Job, id: string)
    requires Inv(s) && Enabled(s, Claiming(worker)) && s.redis.stream[s.redis.cursor] == Valid(job)
    requires id != job.jobId
    ensures View(Next(s, Claiming(worker)), id) == View(s, id)
  {
    ClaimIsTake(s, worker, job);
    DeliverOther(s, id);
    TakeOther(Delivered(s), s.redis.cursor, job, worker, id);
  }

  lemma ClaimKeeps(s: System, worker: string)
    requires Inv(s) && Enabled(s, Claiming(worker))
    ensures Inv(Next(s, Claiming(worker)))
  {
    var e := s.redis.cursor;
    match s.redis.stream[e]
    case Valid(job) =>
      forall id: string ensures Good(View(Next(s, Claiming(worker)), id)) {
        if id == job.jobId {
          ClaimSame(s, worker, job);
        } else {
          assert Good(View(s, id));
          ClaimOther(s, worker, job, id);
        }
      }
    case Malformed(key) =>
      var mid := Delivered(s);
      assert Inv(mid) by {
        forall id: string ensures Good(View(mid, id)) {
          assert Good(View(s, id));
          DeliverOther(s, id);
        }
      }
      RejectKeeps(mid, e, key);
      assert Next(s, Claiming(worker)) == mid.(redis := Reject(mid.redis, e, key));
  }

  // ---------------------------------------------------------------------------
  // Finalising
  // ---------------------------------------------------------------------------

  lemma DropClaim(s: System, c: Claim)
    requires Inv(s)
    ensures Inv(s.(claims := s.claims - {c}))
  {
    var s' := s.(claims := s.claims - {c});
    forall id: string ensures Good(View(s', id)) {
      var v := View(s, id);
      assert Good(v);
      assert ClaimsOf(s', id) == ClaimsOf(s, id) - {c};
      assert View(s', id) == v.(claims := v.claims - {c});
      if !Unborn(v) {
        var j :| j in v.jobs && Live(v, j);
        assert Live(View(s', id), j);
      }
    }
  }

  /** What is known of a job whose claim is current. */
  lemma CurrentClaim(s: System, c: Claim)
    requires Inv(s) && c in s.claims && IsCurrent(s.redis, c)
    ensures var v := View(s, c.job.jobId);
            && Live(v, c.job) && v.pending == {c.entry} && HasStatus(v.hash, Claimed) && v.queued == {} && v.delayed == {}
            && v.result == None && Attempts(v.hash) == c.attempt && v.hash.value.workerId == Some(c.worker)
    ensures IsEntry(s.redis, c.entry, c.job.jobId)
  {
    var v := View(s, c.job.jobId);
    assert Good(v);
    assert c in v.claims;
    assert c.entry in Pending(s.redis, c.job.jobId) by {
      assert v.pending == {c.entry};
    }
  }

  /** Settling a current claim touches no other job. */
  lemma SettleOther(s: System, c: Claim, h: StateHash, id: string)
    requires Inv(s) && c in s.claims && IsCurrent(s.redis, c)
    requires id != c.job.jobId
    ensures View(System(Settle(s.redis, c, h), s.claims - {c}), id) == View(s, id)
  {
    CurrentClaim(s, c);
    var s' := System(Settle(s.redis, c, h), s.claims - {c});
    assert Pending(s'.redis, id) == Pending(s.redis, id);
    assert Queued(s'.redis, id) == Queued(s.redis, id);
    assert JobsOf(s'.redis, id) == JobsOf(s.redis, id);
    assert ClaimsOf(s', id) == ClaimsOf(s, id);
  }

  lemma SettleSame(s: System, c: Claim, h: StateHash)
    requires Inv(s) && c in s.claims && IsCurrent(s.redis, c)
    ensures var v := View(s, c.job.jobId);
            View(System(Settle(s.redis, c, h), s.claims - {c}), c.job.jobId) ==
            v.(pending := {}, hash := Some(h), claims := v.claims - {c})
  {
    CurrentClaim(s, c);
    var id := c.job.jobId;
    var s' := System(Settle(s.redis, c, h), s.claims - {c});
    assert Pending(s'.redis, id) == Pending(s.redis, id) - {c.entry};
    assert Queued(s'.redis, id) == Queued(s.redis, id);
    assert JobsOf(s'.redis, id) == JobsOf(s.redis, id);
    assert ClaimsOf(s', id) == ClaimsOf(s, id) - {c};
  }

  /** A terminal status without a result: plain completion and failure. */
  lemma SettleTerminal(s: System, c: Claim, h: StateHash)
    requires Inv(s) && c in s.claims && IsCurrent(s.redis, c)
    requires h.attempt == Some(c.attempt) && (h.status == Completed || h.status == Failed)
    ensures Inv(System(Settle(s.redis, c, h), s.claims - {c}))
  {
    var s' := System(Settle(s.redis, c, h), s.claims - {c});
    forall id: string ensures Good(View(s', id)) {
      if id == c.job.jobId {
        CurrentClaim(s, c);
        SettleSame(s, c, h);
        assert Live(View(s', id), c.job);
      } else {
        assert Good(View(s, id));
        SettleOther(s, c, h, id);
      }
    }
  }

  lemma ViewRetried(v: JobView, c: Claim, h: StateHash)
    requires Live(v, c.job) && c in v.claims && c.attempt == Attempts(v.hash) && v.hash.Some?
    requires h.attempt == Some(c.attempt) && h.status == RetryScheduled && c.attempt < c.job.maxAttempts
    ensures Live(v.(pending := {}, hash := Some(h), claims := v.claims - {c}, delayed := {c.job}), c.job)
  {
    assert v.pending == {c.entry};
    assert v.queued == {} && v.delayed == {};
  }

  lemma SettleRetry(s: System, c: Claim, h: StateHash, due: real)
    requires Inv(s) && c in s.claims && IsCurrent(s.redis, c)
    requires h.attempt == Some(c.attempt) && h.status == RetryScheduled && c.attempt < c.job.maxAttempts
    ensures Inv(System(Settle(s.redis, c, h).(retry := s.redis.retry[c.job := due]), s.claims - {c}))
  {
    var mid := System(Settle(s.redis, c, h), s.claims - {c});
    var s' := mid.(redis := mid.redis.(retry := s.redis.retry[c.job := due]));
    forall id: string ensures Good(View(s', id)) {
      ScheduledView(mid, c.job, due, id);
      if id == c.job.jobId {
        CurrentClaim(s, c);
        SettleSame(s, c, h);
        ViewRetried(View(s, id), c, h);
        assert {} + {c.job} == {c.job};
        assert c.job in View(s', id).jobs;
      } else {
        assert Good(View(s, id));
        SettleOther(s, c, h, id);
      }
    }
  }

  lemma ScheduledView(s: System, job: Job, due: real, id: string)
    requires Shape(s.redis)
    ensures View(s.(redis := s.redis.(retry := s.redis.retry[job := due])), id) ==
            View(s, id).(delayed := View(s, id).delayed + (if id == job.jobId then {job} else {}))
  {
    var r' := s.redis.(retry := s.redis.retry[job := due]);
    assert Delayed(r', id) == Delayed(s.redis, id) + (if id == job.jobId then {job} else {});
    assert Pending(r', id) == Pending(s.redis, id);
    assert Queued(r', id) == Queued(s.redis, id);
    assert JobsOf(r', id) == JobsOf(s.redis, id);
  }

  /** The view of a job just after its result has been committed. */
  ghost function CommittedView(v: JobView, c: Claim, h: StateHash, result: HandlerResult): JobView {
    v.(pending := {}, hash := Some(h), claims := v.claims - {c},
       result := Some(HSetRecord(None, RecordOf(c, result))),
       events := [EventOf(c, result)],
       matches := if result.decision == Match then {((c.job.targetId, c.job.targetVersion), result.completedAt)} else {})
  }

  lemma ViewCommitted(v: JobView, c: Claim, h: StateHash, result: HandlerResult)
    requires Live(v, c.job) && c in v.claims && c.attempt == Attempts(v.hash) && v.hash.Some? && v.result == None
    requires h.attempt == Some(c.attempt) && h.status == Completed
    ensures Live(CommittedView(v, c, h, result), c.job)
  {
    assert v.pending == {c.entry};
    assert v.queued == {} && v.delayed == {};
  }

  /** The three structures that only a commit writes. */
  ghost function Published(r: Redis, c: Claim, result: HandlerResult): Redis {
    r.(results := r.results[c.job.jobId := HSetRecord(Lookup(r.results, c.job.jobId), RecordOf(c, result))],
       events := r.events + [EventOf(c, result)],
       index := if result.decision == Match then AddMatch(r.index, c.job, result.completedAt) else r.index)
  }

  lemma MatchesIff(r: Redis, id: string, key: (string, string), score: real)
    ensures (key, score) in MatchesOf(r, id) <==> key in r.index && id in r.index[key] && r.index[key][id] == score
  {
  }

  /** A commit lists its job, and no other, in the index of the job's target and version. */
  lemma IndexAfter(r: Redis, job: Job, score: real, id: string)
    ensures MatchesOf(r.(index := AddMatch(r.index, job, score)), id) ==
            if id != job.jobId then MatchesOf(r, id)
            else (set x | x in MatchesOf(r, id) && x.0 != (job.targetId, job.targetVersion)) + {((job.targetId, job.targetVersion), score)}
  {
    var r' := r.(index := AddMatch(r.index, job, score));
    var listed := if id != job.jobId then MatchesOf(r, id)
                  else (set x | x in MatchesOf(r, id) && x.0 != (job.targetId, job.targetVersion)) + {((job.targetId, job.targetVersion), score)};
    forall x: ((string, string), real) ensures x in MatchesOf(r', id) <==> x in listed {
      MatchesIff(r', id, x.0, x.1);
      MatchesIff(r, id, x.0, x.1);
    }
  }

  lemma PublishedOther(s: System, c: Claim, result: HandlerResult, id: string)
    requires Shape(s.redis) && id != c.job.jobId
    ensures View(s.(redis := Published(s.redis, c, result)), id) == View(s, id)
  {
    var r' := Published(s.redis, c, result);
    EventsAppend(s.redis.events, EventOf(c, result), id);
    assert Pending(r', id) == Pending(s.redis, id);
    assert Queued(r', id) == Queued(s.redis, id);
    assert JobsOf(r', id) == JobsOf(s.redis, id);
    IndexAfter(s.redis, c.job, result.completedAt, id);
    assert MatchesOf(r', id) == MatchesOf(s.redis.(index := r'.index), id);
  }

  lemma PublishedSame(s: System, c: Claim, result: HandlerResult)
    requires Shape(s.redis)
    requires var v := View(s, c.job.jobId); v.events == [] && v.matches == {} && v.result == None
    ensures var v := View(s, c.job.jobId);
            View(s.(redis := Published(s.redis, c, result)), c.job.jobId) ==
            v.(result := Some(HSetRecord(None, RecordOf(c, result))), events := [EventOf(c, result)],
               matches := if result.decision == Match then {((c.job.targetId, c.job.targetVersion), result.completedAt)} else {})
  {
    var id := c.job.jobId;
    var r, r' := s.redis, Published(s.redis, c, result);
    EventsAppend(r.events, EventOf(c, result), id);
    assert Pending(r', id) == Pending(r, id);
    assert Queued(r', id) == Queued(r, id);
    assert JobsOf(r', id) == JobsOf(r, id);
    assert MatchesOf(r, id) == {};
    IndexAfter(r, c.job, result.completedAt, id);
    assert MatchesOf(r', id) == MatchesOf(r.(index := r'.index), id);
    assert MatchesOf(r', id) == if result.decision == Match then {((c.job.targetId, c.job.targetVersion), result.completedAt)} else {};
  }

  lemma CommitKeeps(s: System, c: Claim, result: HandlerResult)
    requires Inv(s) && c in s.claims && IsCurrent(s.redis, c)
    ensures Inv(System(CommitResultIfCurrent(s.redis, c, result), s.claims - {c}))
  {
    var h := s.redis.state[c.job.jobId].(status := Completed, completedAt := Some(result.completedAt));
    var mid := System(Settle(s.redis, c, h), s.claims - {c});
    var s' := System(CommitResultIfCurrent(s.redis, c, result), s.claims - {c});
    assert s' == mid.(redis := Published(mid.redis, c, result));
    CurrentClaim(s, c);
    forall id: string ensures Good(View(s', id)) {
      if id == c.job.jobId {
        SettleSame(s, c, h);
        PublishedSame(mid, c, result);
        ViewCommitted(View(s, id), c, h, result);
        assert View(s', id) == CommittedView(View(s, id), c, h, result);
        assert c.job in View(s', id).jobs;
      } else {
        assert Good(View(s, id));
        SettleOther(s, c, h, id);
        PublishedOther(mid, c, result, id);
      }
    }
  }

  lemma FinaliseKeeps(s: System, c: Claim, verdict: Verdict, now: real, due: real)
    requires Inv(s) && c in s.claims
    ensures Inv(Next(s, Finalising(c, verdict, now, due)))
  {
    if !IsCurrent(s.redis, c) {
      DropClaim(s, c);
      assert Finalise(s.redis, c, verdict, now, due) == s.redis;
    } else {
      var h := s.redis.state[c.job.jobId];
      match verdict
      case Returned(None) => SettleTerminal(s, c, h.(status := Completed, completedAt := Some(now)));
      case Returned(Some(result)) => CommitKeeps(s, c, result);
      case Transient(reason) =>
        if c.attempt >= c.job.maxAttempts {
          SettleTerminal(s, c, h.(status := Failed, failureReason := Some(ExhaustedReason(c.job, reason)), failedAt := Some(now)));
        } else {
          SettleRetry(s, c, h.(status := RetryScheduled, lastFailure := Some(reason), scheduledAt := Some(now), nextAttemptAt := Some(due)), due);
        }
      case Permanent(reason) => SettleTerminal(s, c, h.(status := Failed, failureReason := Some(reason), failedAt := Some(now)));
    }
  }

  // ---------------------------------------------------------------------------
  // Every step, every run
  // ---------------------------------------------------------------------------

  lemma StepKeeps(s: System, step: Step)
    requires Inv(s) && Enabled(s, step)
    ensures Inv(Next(s, step))
  {
    match step
    case Produce(entry) => ProduceKeeps(s, entry);
    case Claiming(worker) => ClaimKeeps(s, worker);
    case Reclaiming(e, worker) => ReclaimKeeps(s, e, worker);
    case Delivering(worker) => DeliveryKeeps(s, worker);
    case Passing(e, worker) => PassingKeeps(s, e, worker);
    case Finalising(c, verdict, now, due) => FinaliseKeeps(s, c, verdict, now, due);
    case Promoting(job) => PromoteKeeps(s, job);
    case Crash(c) => DropClaim(s, c);
  }

  lemma InitialInv()
    ensures Inv(INITIAL)
  {
    forall id: string ensures Good(View(INITIAL, id)) {
      assert Unborn(View(INITIAL, id));
    }
  }

  /** The invariant holds after every run that starts in a state satisfying it. */
  lemma {:induction false} RunKeeps(s: System, steps: seq<Step>)
    requires Inv(s) && Feasible(s, steps)
    ensures Inv(After(s, steps))
  {
    if |steps| > 0 {
      RunKeeps(s, steps[..|steps| - 1]);
      StepKeeps(After(s, steps[..|steps| - 1]), steps[|steps| - 1]);
    }
  }
}
