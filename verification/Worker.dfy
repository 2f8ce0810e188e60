/**
 The worker itself: a Redis server whose structures hold raw strings, its Lua scripts as
 methods that write those structures one after the other, and the worker's methods on top.

 The server carries the abstract system it stands for, and `Valid` says two things: the raw
 structures encode that system, and the system is reachable in Protocol. A method that keeps
 `Valid` is therefore a sequence of protocol steps, and the theorems of ProtocolTheorems hold
 between any two calls.
 */
module Worker {
  import opened Wrappers
  import opened Jobs
  import opened Protocol
  import PT = ProtocolTheorems
  import PI = ProtocolInvariant
  import Numbers

  /** A stream entry as Redis stores it. */
  datatype RawEntry = RawEntry(id: string, fields: Fields)

  /** What a worker makes of an entry. */
  function Decode(raw: RawEntry): Entry {
    match Parse(raw.fields)
    case Ok(job) => Valid(job)
    case Err(_) => Malformed(if Present(raw.fields, JobId) then raw.fields[JobId] else raw.id)
  }

  /** `ClaimedEntry`: a claim, or the position of an entry that was rejected. */
  datatype ClaimedEntry = ClaimedEntry(entry: nat, claim: Option<Claim>)

  lemma StepReachable(s: System, step: Step)
    requires PT.Reachable(s) && Enabled(s, step)
    ensures PT.Reachable(Next(s, step))
  {
    var steps: seq<Step> :| Feasible(INITIAL, steps) && After(INITIAL, steps) == s;
    PT.Extend(INITIAL, steps, step);
  }

  /** One step of the protocol leads from one system to the other. */
  ghost predicate StepsTo(s: System, step: Step, t: System) {
    Enabled(s, step) && Next(s, step) == t
  }

  lemma CommitNext(s: System, c: Claim, result: HandlerResult)
    requires c in s.claims
    ensures Next(s, Finalising(c, Returned(Some(result)), 0.0, 0.0)) ==
            System(CommitResultIfCurrent(s.redis, c, result), s.claims - {c})
  {
  }

  lemma StartReachable()
    ensures PT.Reachable(INITIAL)
  {
    assert Feasible(INITIAL, []) && After(INITIAL, []) == INITIAL;
  }

  /** The retry ZSET's members are the printed forms of the jobs waiting in it. */
  ghost predicate EncodesRetries(raw: map<Fields, real>, retry: map<Job, real>) {
    && (forall j :: j in retry ==> Parse(Print(j)) == Ok(j) && Print(j) in raw && raw[Print(j)] == retry[j])
    && (forall p :: p in raw ==> Parse(p).Ok? && Parse(p).value in retry && Print(Parse(p).value) == p)
  }

  ghost predicate EncodesStream(raw: seq<RawEntry>, stream: seq<Entry>) {
    |raw| == |stream| && forall i :: 0 <= i < |raw| ==> stream[i] == Decode(raw[i])
  }

  lemma RetryAdded(raw: map<Fields, real>, retry: map<Job, real>, j: Job, due: real)
    requires EncodesRetries(raw, retry) && Parse(Print(j)) == Ok(j)
    ensures EncodesRetries(raw[Print(j) := due], retry[j := due])
  {
    hide Parse, Print;
    forall k | k in retry && k != j ensures Print(k) != Print(j) {
      assert Parse(Print(k)) == Ok(k);
    }
  }

  lemma RetryRemoved(raw: map<Fields, real>, retry: map<Job, real>, j: Job)
    requires EncodesRetries(raw, retry) && j in retry
    ensures EncodesRetries(raw - {Print(j)}, retry - {j})
  {
    hide Parse, Print;
    forall k | k in retry && k != j ensures Print(k) != Print(j) {
      assert Parse(Print(k)) == Ok(k);
    }
    forall p | p in raw && p != Print(j) ensures Parse(p).value != j {
      assert Print(Parse(p).value) == p;
    }
  }

  lemma MemberJob(raw: map<Fields, real>, retry: map<Job, real>, p: Fields)
    requires EncodesRetries(raw, retry) && p in raw
    ensures Parse(p).Ok? && Parse(p).value in retry && Print(Parse(p).value) == p
    ensures raw[p] == retry[Parse(p).value]
    ensures forall id: string :: Decode(RawEntry(id, p)) == Valid(Parse(p).value)
  {
  }

  lemma StreamAppended(raw: seq<RawEntry>, stream: seq<Entry>, entry: RawEntry)
    requires EncodesStream(raw, stream)
    ensures EncodesStream(raw + [entry], stream + [Decode(entry)])
  {
  }

  /** A held claim has a positive attempt, and its job was read from the stream. */
  lemma HeldClaim(raw: seq<RawEntry>, s: System, c: Claim)
    requires EncodesStream(raw, s.redis.stream) && PT.Reachable(s) && c in s.claims
    ensures c.attempt >= 1 && WellFormed(c.job)
  {
    PT.ReachableInv(s);
    var v := PI.View(s, c.job.jobId);
    assert PI.Good(v) && c in v.claims;
    assert c.job in v.jobs;
    hide PI.Good, PI.Inv;
    var e: nat :| e < |s.redis.stream| && IsEntry(s.redis, e, c.job.jobId) && s.redis.stream[e].job == c.job;
    assert s.redis.stream[e] == Decode(raw[e]);
    hide Parse;
    ParsedIsWellFormed(raw[e].fields);
  }

  lemma PromoteNext(s: System, job: Job)
    requires job in s.redis.retry
    ensures Enabled(s, Promoting(job))
    ensures Next(s, Promoting(job)) == s.(redis := PromoteRetry(s.redis, job))
    ensures PromoteRetry(s.redis, job) == s.redis.(retry := s.redis.retry - {job}, stream := s.redis.stream + [Valid(job)])
  {
  }

  class Server {
    var stream: seq<RawEntry>
    var cursor: nat
    var pel: map<nat, string>
    var retry: map<Fields, real>
    var state: map<string, StateHash>
    var results: map<string, ResultRecord>
    var events: seq<Event>
    var index: map<(string, string), map<string, real>>

    ghost var sys: System

    ghost predicate Encodes()
      reads this
    {
      var r := sys.redis;
      && EncodesStream(stream, r.stream) && EncodesRetries(retry, r.retry)
      && cursor == r.cursor && pel == r.pel && state == r.state
      && results == r.results && events == r.events && index == r.index
    }

    ghost predicate Valid()
      reads this
    {
      Encodes() && PT.Reachable(sys)
    }

    /** In the middle of a batch of reclaims: XAUTOCLAIM has handed `rest` to `consumer`
        already, the state hashes of those entries are still to be written. */
    ghost predicate Handing(rest: seq<nat>, consumer: string)
      reads this
    {
      var r := sys.redis;
      && EncodesStream(stream, r.stream) && EncodesRetries(retry, r.retry)
      && cursor == r.cursor && pel == r.pel + HandedTo(rest, consumer) && state == r.state
      && results == r.results && events == r.events && index == r.index
      && PT.Reachable(sys)
      && Held(rest, r.pel, |r.stream|)
    }

    constructor ()
      ensures Valid() && sys == INITIAL
    {
      stream, cursor, pel, retry := [], 0, map[], map[];
      state, results, events, index := map[], map[], [], map[];
      sys := INITIAL;
      new;
      StartReachable();
    }

    /** XADD of a job's fields by a producer. */
    method Enqueue(id: string, fields: Fields)
      requires Valid()
      requires Enabled(sys, Produce(Decode(RawEntry(id, fields))))
      modifies this
      ensures Valid()
      ensures sys == Next(old(sys), Produce(Decode(RawEntry(id, fields))))
      ensures stream == old(stream) + [RawEntry(id, fields)]
    {
      hide PT.Reachable, Parse, Print, EncodesRetries, Decode;
      StepReachable(sys, Produce(Decode(RawEntry(id, fields))));
      sys := Next(sys, Produce(Decode(RawEntry(id, fields))));
      stream := stream + [RawEntry(id, fields)];
    }

    /** The check at the head of every finalising script. */
    method AttemptMatches(c: Claim) returns (current: bool)
      requires Encodes()
      ensures current == IsCurrent(sys.redis, c)
    {
      if c.job.jobId !in state {
        return false;
      }
      current := state[c.job.jobId].attempt == Some(c.attempt);
    }

    /** HSET of the job's state hash. */
    method WriteHash(id: string, h: StateHash)
      modifies this`state
      ensures state == old(state)[id := h]
    {
      state := state[id := h];
    }

    method Xack(e: nat)
      modifies this`pel
      ensures pel == old(pel) - {e}
    {
      pel := pel - {e};
    }

    method CompleteScript(c: Claim, now: real) returns (done: bool)
      requires Valid() && c in sys.claims
      modifies this
      ensures Valid()
      ensures done == IsCurrent(old(sys.redis), c)
      ensures sys == System(CompleteIfCurrent(old(sys.redis), c, now), old(sys.claims) - {c})
      ensures retry == old(retry)
    {
      hide PT.Reachable, EncodesRetries, EncodesStream, Parse, Print;
      ghost var step := Finalising(c, Returned(None), now, 0.0);
      StepReachable(sys, step);
      done := AttemptMatches(c);
      if done {
        WriteHash(c.job.jobId, state[c.job.jobId].(status := Completed, completedAt := Some(now)));
        Xack(c.entry);
      }
      sys := Next(sys, step);
    }

    method FailScript(c: Claim, now: real, reason: string) returns (done: bool)
      requires Valid() && c in sys.claims
      modifies this
      ensures Valid()
      ensures done == IsCurrent(old(sys.redis), c) && retry == old(retry)
      ensures sys == System(FailIfCurrent(old(sys.redis), c, now, reason), old(sys.claims) - {c})
    {
      hide PT.Reachable, EncodesRetries, EncodesStream, Parse, Print;
      ghost var step := Finalising(c, Permanent(reason), now, 0.0);
      StepReachable(sys, step);
      done := AttemptMatches(c);
      if done {
        WriteHash(c.job.jobId, state[c.job.jobId].(status := Failed, failureReason := Some(reason), failedAt := Some(now)));
        Xack(c.entry);
      }
      sys := Next(sys, step);
    }

    method ScheduleRetryScript(c: Claim, now: real, due: real, reason: string, payload: Fields) returns (done: bool)
      requires Valid() && c in sys.claims
      requires c.attempt < c.job.maxAttempts && payload == Print(c.job) && Parse(payload) == Ok(c.job)
      modifies this
      ensures Valid()
      ensures done == IsCurrent(old(sys.redis), c)
      ensures sys == System(ScheduleRetryIfCurrent(old(sys.redis), c, now, due, reason), old(sys.claims) - {c})
      ensures retry == if done then old(retry)[payload := due] else old(retry)
    {
      hide PT.Reachable, EncodesRetries, EncodesStream, Parse, Print;
      ghost var step := Finalising(c, Transient(reason), now, due);
      StepReachable(sys, step);
      done := AttemptMatches(c);
      if done {
        WriteHash(c.job.jobId, state[c.job.jobId].(status := RetryScheduled, lastFailure := Some(reason),
                                                   scheduledAt := Some(now), nextAttemptAt := Some(due)));
        RetryAdded(retry, sys.redis.retry, c.job, due);
        retry := retry[payload := due];
        Xack(c.entry);
      }
      sys := Next(sys, step);
    }

    method CommitResultScript(c: Claim, result: HandlerResult) returns (done: bool)
      requires Valid() && c in sys.claims
      modifies this
      ensures Valid()
      ensures done == IsCurrent(old(sys.redis), c)
      ensures sys == System(CommitResultIfCurrent(old(sys.redis), c, result), old(sys.claims) - {c})
      ensures retry == old(retry)
    {
      hide PT.Reachable, EncodesRetries, EncodesStream, Parse, Print, Next, HSetRecord, RecordOf, EventOf, AddMatch;
      ghost var step := Finalising(c, Returned(Some(result)), 0.0, 0.0);
      CommitNext(sys, c, result);
      StepReachable(sys, step);
      done := AttemptMatches(c);
      if done {
        var id := c.job.jobId;
        WriteHash(id, state[id].(status := Completed, completedAt := Some(result.completedAt)));
        results := results[id := HSetRecord(Lookup(results, id), RecordOf(c, result))];
        events := events + [EventOf(c, result)];
        if result.decision == Match {
          index := AddMatch(index, c.job, result.completedAt);
        }
        Xack(c.entry);
      }
      sys := Next(sys, step);
    }

    /** ZREM, then XADD of the member's own fields. */
    method PromoteScript(member: Fields, id: string) returns (done: bool)
      requires Valid()
      modifies this
      ensures Valid()
      ensures done == (member in old(retry))
      ensures retry == old(retry) - {member}
      ensures done ==> stream == old(stream) + [RawEntry(id, member)]
      ensures !done ==> stream == old(stream)
      ensures done ==> Parse(member).Ok? && Parse(member).value in old(sys.redis.retry)
      ensures done ==> sys == old(sys).(redis := PromoteRetry(old(sys.redis), Parse(member).value))
      ensures !done ==> sys == old(sys)
    {
      hide PT.Reachable, Parse, Print, EncodesRetries, EncodesStream, Decode, Next, Enabled;
      done := member in retry;
      if !done {
        return;
      }
      MemberJob(retry, sys.redis.retry, member);
      ghost var job := Parse(member).value;
      PromoteNext(sys, job);
      StepReachable(sys, Promoting(job));
      RetryRemoved(retry, sys.redis.retry, job);
      StreamAppended(stream, sys.redis.stream, RawEntry(id, member));
      retry := retry - {member};
      stream := stream + [RawEntry(id, member)];
      sys := Next(sys, Promoting(job));
    }

    /** The promotion of the members read beforehand, each by its own script. */
    method PromoteMembers(members: seq<Fields>, ids: nat -> string) returns (promoted: nat)
      requires Valid()
      requires Elements(members) <= retry.Keys && Distinct(members)
      modifies this
      ensures Valid()
      ensures promoted == |members|
      ensures retry == old(retry) - Elements(members)
      ensures stream == old(stream) + Stamped(members, ids)
    {
      hide Server.Valid, Parse, PromoteRetry, Elements, Stamped, Distinct, Promoted;
      promoted := 0;
      var i := 0;
      NonePromoted(retry, stream, members, ids);
      while i < |members|
        invariant 0 <= i <= |members| && promoted == i && Valid()
        invariant Promoted(old(retry), old(stream), members, ids, i, retry, stream)
      {
        NextPromoted(old(retry), old(stream), members, ids, i, retry, stream);
        var done := PromoteScript(members[i], ids(i));
        if done {
          promoted := promoted + 1;
        }
        i := i + 1;
      }
      AllPromoted(old(retry), old(stream), members, ids, retry, stream);
    }

    // -------------------------------------------------------------------------
    // Commands the claim path uses one by one
    // -------------------------------------------------------------------------

    /** XREADGROUP of one new entry. */
    method ReadGroup(consumer: string) returns (e: nat)
      requires cursor < |stream|
      modifies this`cursor, this`pel
      ensures e == old(cursor) && cursor == old(cursor) + 1 && pel == old(pel)[e := consumer]
    {
      e := cursor;
      cursor := cursor + 1;
      pel := pel[e := consumer];
    }

    /** XAUTOCLAIM of the entries the server found idle. */
    method AutoClaim(stale: seq<nat>, consumer: string)
      requires Valid()
      requires forall i :: 0 <= i < |stale| ==> stale[i] in pel && stale[i] < |stream|
      modifies this`pel
      ensures Handing(stale, consumer)
      ensures pel == old(pel) + HandedTo(stale, consumer)
    {
      pel := pel + HandedTo(stale, consumer);
    }

    /** `mark_rejected` and XACK of an entry that has been handed over. */
    method RejectHanded(e: nat, rest: seq<nat>, key: string, consumer: string)
      requires Handing([e] + rest, consumer) && e !in rest
      requires e < |sys.redis.stream| && sys.redis.stream[e] == Malformed(key)
      modifies this
      ensures Handing(rest, consumer) && stream == old(stream)
      ensures StepsTo(old(sys), Reclaiming(e, consumer), sys)
    {
      hide PT.Reachable, EncodesRetries, EncodesStream, Decode, Next, Created, HandedTo, Held;
      HeldRest(e, rest, sys.redis.pel, |sys.redis.stream|, consumer);
      StepReachable(sys, Reclaiming(e, consumer));
      ReclaimedShape(sys, e, consumer);
      HandedRest(sys.redis.pel, e, rest, consumer);
      MarkRejected(key, REJECTION);
      Xack(e);
      sys := Next(sys, Reclaiming(e, consumer));
    }

    /** The read and the write of the attempt of an entry that has been handed over. */
    method TakeHanded(e: nat, rest: seq<nat>, job: Job, consumer: string) returns (attempt: nat)
      requires Handing([e] + rest, consumer) && e !in rest
      requires e < |sys.redis.stream| && sys.redis.stream[e] == Entry.Valid(job)
      modifies this
      ensures Handing(rest, consumer) && stream == old(stream)
      ensures StepsTo(old(sys), Reclaiming(e, consumer), sys)
      ensures attempt == Attempts(Lookup(old(sys.redis.state), job.jobId)) + 1
    {
      hide PT.Reachable, EncodesRetries, EncodesStream, Decode, Next, Created, HandedTo, Held;
      HeldRest(e, rest, sys.redis.pel, |sys.redis.stream|, consumer);
      StepReachable(sys, Reclaiming(e, consumer));
      ReclaimedShape(sys, e, consumer);
      HandedRest(sys.redis.pel, e, rest, consumer);
      attempt := NextAttempt(job.jobId);
      MarkClaimed(job.jobId, consumer, attempt);
      sys := Next(sys, Reclaiming(e, consumer));
    }

    lemma ClaimIsSound(c: Claim)
      requires Valid() && c in sys.claims
      ensures c.attempt >= 1 && WellFormed(c.job)
    {
      HeldClaim(stream, sys, c);
    }

    lemma AllHanded(consumer: string)
      requires Handing([], consumer)
      ensures Valid()
    {
      assert pel == sys.redis.pel;
    }

    method NextAttempt(id: string) returns (attempt: nat)
      ensures attempt == Attempts(Lookup(state, id)) + 1
    {
      var previous := 0;
      if id in state && state[id].attempt.Some? {
        previous := state[id].attempt.value;
      }
      attempt := previous + 1;
    }

    method MarkClaimed(id: string, worker: string, attempt: nat)
      modifies this`state
      ensures state == old(state)[id := HashClaimed(Lookup(old(state), id), worker, attempt)]
    {
      WriteHash(id, HashClaimed(Lookup(state, id), worker, attempt));
    }

    method MarkRejected(key: string, reason: string)
      modifies this`state
      ensures state == old(state)[key := HashRejected(Lookup(old(state), key), reason)]
    {
      WriteHash(key, HashRejected(Lookup(state, key), reason));
    }

    /** ZRANGEBYSCORE -inf now LIMIT 0 limit. */
    method DueRetries(now: real, limit: nat) returns (due: seq<Fields>)
      ensures |due| <= limit
      ensures forall i :: 0 <= i < |due| ==> due[i] in retry && retry[due[i]] <= now
      ensures forall i, j :: 0 <= i < j < |due| ==> due[i] != due[j] && retry[due[i]] <= retry[due[j]]
      ensures forall p :: p in retry && retry[p] <= now && p !in due ==>
                |due| == limit && forall i :: 0 <= i < |due| ==> retry[due[i]] <= retry[p]
    {
      hide Picked;
      due := [];
      var rest := set p | p in retry && retry[p] <= now;
      NothingPicked(retry, now, rest);
      while rest != {} && |due| < limit
        invariant |due| <= limit && rest <= retry.Keys
        invariant Picked(retry, now, due, rest)
        decreases |rest|
      {
        EarliestExists(retry, rest);
        var p :| p in rest && forall q :: q in rest ==> retry[p] <= retry[q];
        PickNext(retry, now, due, rest, p);
        rest := rest - {p};
        due := due + [p];
      }
      PickedAll(retry, now, due, rest);
    }
  }

  /** `due` holds the earliest of the due members, in order, and `rest` the others. */
  ghost predicate Picked(retry: map<Fields, real>, now: real, due: seq<Fields>, rest: set<Fields>) {
    && (forall p :: p in retry && retry[p] <= now <==> p in rest || p in due)
    && (forall p :: p in rest ==> p !in due)
    && (forall q, p :: q in due && p in rest ==> q in retry && p in retry && retry[q] <= retry[p])
    && (forall i, j :: 0 <= i < j < |due| ==> due[i] in retry && due[j] in retry && due[i] != due[j] && retry[due[i]] <= retry[due[j]])
  }

  lemma NothingPicked(retry: map<Fields, real>, now: real, rest: set<Fields>)
    requires rest == set p | p in retry && retry[p] <= now
    ensures Picked(retry, now, [], rest)
  {
  }

  lemma PickNext(retry: map<Fields, real>, now: real, due: seq<Fields>, rest: set<Fields>, p: Fields)
    requires Picked(retry, now, due, rest) && rest <= retry.Keys
    requires p in rest && forall q :: q in rest ==> retry[p] <= retry[q]
    ensures Picked(retry, now, due + [p], rest - {p})
  {
    forall q ensures q in due + [p] <==> q in due || q == p {}
  }

  lemma PickedAll(retry: map<Fields, real>, now: real, due: seq<Fields>, rest: set<Fields>)
    requires Picked(retry, now, due, rest)
    ensures forall i :: 0 <= i < |due| ==> due[i] in retry && retry[due[i]] <= now
    ensures forall i, j :: 0 <= i < j < |due| ==> due[i] != due[j] && retry[due[i]] <= retry[due[j]]
    ensures forall p :: p in retry && retry[p] <= now && p !in due ==>
              p in rest && forall i :: 0 <= i < |due| ==> retry[due[i]] <= retry[p]
  {
    forall i | 0 <= i < |due| ensures due[i] in retry && retry[due[i]] <= now {
      assert due[i] in due;
    }
    forall p | p in rest
      ensures forall i :: 0 <= i < |due| ==> due[i] in retry && p in retry && retry[due[i]] <= retry[p]
    {
      forall i | 0 <= i < |due| ensures due[i] in retry && p in retry && retry[due[i]] <= retry[p] {
        assert due[i] in due;
      }
    }
  }

  function HandedTo(entries: seq<nat>, consumer: string): map<nat, string> {
    map e | e in entries :: consumer
  }

  lemma EarliestExists(retry: map<Fields, real>, rest: set<Fields>)
    requires rest != {} && rest <= retry.Keys
    ensures exists p :: p in rest && forall q :: q in rest ==> retry[p] <= retry[q]
    decreases |rest|
  {
    var p :| p in rest;
    if rest != {p} {
      EarliestExists(retry, rest - {p});
      var m :| m in rest - {p} && forall q :: q in rest - {p} ==> retry[m] <= retry[q];
      var best := if retry[p] <= retry[m] then p else m;
      forall q | q in rest ensures retry[best] <= retry[q] {
        assert q == p || q in rest - {p};
      }
    } else {
      assert forall q :: q in rest ==> retry[p] <= retry[q];
    }
  }

  // ---------------------------------------------------------------------------
  // Backoff
  // ---------------------------------------------------------------------------

  /** base * 2^(attempt - 1), capped. */
  function BackoffSeconds(base: real, cap: real, attempt: nat): real
    requires attempt >= 1
  {
    var delay := base * Numbers.Power(2, attempt - 1) as real;
    if delay < cap then delay else cap
  }

  lemma {:induction false} PowerPositive(k: nat)
    ensures Numbers.Power(2, k) >= 1
  {
    if k > 0 {
      PowerPositive(k - 1);
    }
  }

  /** The first delay is the base, each further one is twice the last, and all are cut at the cap:
      with non-negative settings this determines every delay. So they never shrink either. */
  lemma BackoffGrows(base: real, cap: real, attempt: nat)
    requires base >= 0.0 && attempt >= 1
    ensures BackoffSeconds(base, cap, 1) == if base < cap then base else cap
    ensures var d, e := BackoffSeconds(base, cap, attempt), BackoffSeconds(base, cap, attempt + 1);
            && d <= e <= cap
            && (cap >= 0.0 ==> e == if 2.0 * d < cap then 2.0 * d else cap)
            && (cap < 0.0 ==> e == cap)
  {
    var x := base * Numbers.Power(2, attempt - 1) as real;
    PowerPositive(attempt - 1);
    assert Numbers.Power(2, attempt) == 2 * Numbers.Power(2, attempt - 1);
    assert Numbers.Power(2, attempt) as real == 2.0 * Numbers.Power(2, attempt - 1) as real;
    assert base * Numbers.Power(2, attempt) as real == 2.0 * x;
    assert x >= 0.0;
    assert Numbers.Power(2, 0) as real == 1.0;
  }

  /** The delay is the base doubled once per earlier attempt, cut at the cap, for every base and cap. */
  lemma BackoffIs(base: real, cap: real, attempt: nat)
    requires attempt >= 1
    ensures BackoffSeconds(base, cap, attempt) ==
            (var delay := base * Numbers.Power(2, attempt - 1) as real;
             if delay < cap then delay else cap)
  {
    hide Numbers.Power;
  }

  // ---------------------------------------------------------------------------
  // The worker
  // ---------------------------------------------------------------------------

  lemma ClaimedValid(s: System, worker: string, job: Job)
    requires Enabled(s, Claiming(worker)) && s.redis.stream[s.redis.cursor] == Valid(job)
    ensures var r, e, id := s.redis, s.redis.cursor, job.jobId;
            var attempt := Attempts(Lookup(r.state, id)) + 1;
            && Created(s, Claiming(worker)) == Some(Claim(e, job, attempt, worker))
            && Next(s, Claiming(worker)) ==
               System(r.(cursor := e + 1, pel := r.pel[e := worker],
                         state := r.state[id := HashClaimed(Lookup(r.state, id), worker, attempt)]),
                      s.claims + {Claim(e, job, attempt, worker)})
  {
  }

  lemma ClaimedMalformed(s: System, worker: string, key: string)
    requires Enabled(s, Claiming(worker)) && s.redis.stream[s.redis.cursor] == Malformed(key)
    ensures var r, e := s.redis, s.redis.cursor;
            && Created(s, Claiming(worker)) == None
            && Next(s, Claiming(worker)) ==
               s.(redis := r.(cursor := e + 1, pel := r.pel[e := worker] - {e},
                              state := r.state[key := HashRejected(Lookup(r.state, key), REJECTION)]))
  {
    var r, e := s.redis, s.redis.cursor;
    assert r.pel[e := worker] - {e} == r.pel - {e};
  }

  /** The reclaims of a batch of entries, one after the other. */
  function Takeovers(entries: seq<nat>, worker: string): seq<Step> {
    seq(|entries|, i requires 0 <= i < |entries| => Reclaiming(entries[i], worker))
  }

  /** What one reclaim does to the pending list and to everything else but the state hashes. */
  lemma ReclaimedShape(s: System, e: nat, worker: string)
    requires Enabled(s, Reclaiming(e, worker))
    ensures var r, r' := s.redis, Next(s, Reclaiming(e, worker)).redis;
            && r' == r.(pel := r'.pel, state := r'.state)
            && r'.pel == (if r.stream[e].Valid? then r.pel[e := worker] else r.pel - {e})
            && r'.state == (match r.stream[e]
                            case Valid(job) =>
                              r.state[job.jobId := HashClaimed(Lookup(r.state, job.jobId), worker, Attempts(Lookup(r.state, job.jobId)) + 1)]
                            case Malformed(key) => r.state[key := HashRejected(Lookup(r.state, key), REJECTION)])
    ensures Created(s, Reclaiming(e, worker)) ==
            (match s.redis.stream[e]
             case Valid(job) => Some(Claim(e, job, Attempts(Lookup(s.redis.state, job.jobId)) + 1, worker))
             case Malformed(_) => None)
  {
  }

  class Consumer {
    const server: Server
    const name: string
    const retryBase: real
    const retryMax: real

    constructor (server: Server, name: string, retryBase: real, retryMax: real)
      ensures this.server == server && this.name == name && this.retryBase == retryBase && this.retryMax == retryMax
    {
      this.server := server;
      this.name := name;
      this.retryBase := retryBase;
      this.retryMax := retryMax;
    }

    /** One new entry, rejected when malformed and claimed otherwise; None when there is none. */
    method ClaimOne() returns (claimed: Option<ClaimedEntry>)
      requires server.Valid()
      modifies server
      ensures server.Valid()
      ensures old(server.cursor) >= |old(server.stream)| ==> claimed == None && server.sys == old(server.sys)
      ensures old(server.cursor) < |old(server.stream)| ==>
                && Enabled(old(server.sys), Claiming(name))
                && server.sys == Next(old(server.sys), Claiming(name))
                && claimed == Some(ClaimedEntry(old(server.cursor), Created(old(server.sys), Claiming(name))))
    {
      hide PT.Reachable, EncodesRetries, Parse, Print, Next, Created;
      if server.cursor >= |server.stream| {
        return None;
      }
      ghost var step := Claiming(name);
      StepReachable(server.sys, step);
      var e := server.ReadGroup(name);
      match Parse(server.stream[e].fields)
      case Err(_) =>
        var key := if Present(server.stream[e].fields, JobId) then server.stream[e].fields[JobId] else server.stream[e].id;
        ClaimedMalformed(server.sys, name, key);
        server.MarkRejected(key, REJECTION);
        server.Xack(e);
        server.sys := Next(server.sys, step);
        claimed := Some(ClaimedEntry(e, None));
      case Ok(job) =>
        ClaimedValid(server.sys, name, job);
        var attempt := server.NextAttempt(job.jobId);
        server.MarkClaimed(job.jobId, name, attempt);
        server.sys := Next(server.sys, step);
        claimed := Some(ClaimedEntry(e, Some(Claim(e, job, attempt, name))));
    }

    /** The writes that follow XAUTOCLAIM for one of the entries it returned. */
    method TakeOver(e: nat, rest: seq<nat>) returns (claimed: ClaimedEntry)
      requires server.Handing([e] + rest, name) && e !in rest
      modifies server
      ensures server.Handing(rest, name) && server.stream == old(server.stream)
      ensures StepsTo(old(server.sys), Reclaiming(e, name), server.sys)
      ensures claimed == ClaimedEntry(e, Created(old(server.sys), Reclaiming(e, name)))
    {
      hide Next, Created, PT.Reachable, EncodesRetries, HandedTo, Parse;
      assert e in [e] + rest;
      assert server.sys.redis.stream[e] == Decode(server.stream[e]);
      match Parse(server.stream[e].fields)
      case Err(_) =>
        var key := if Present(server.stream[e].fields, JobId) then server.stream[e].fields[JobId] else server.stream[e].id;
        ReclaimedShape(server.sys, e, name);
        server.RejectHanded(e, rest, key, name);
        claimed := ClaimedEntry(e, None);
      case Ok(job) =>
        ReclaimedShape(server.sys, e, name);
        var attempt := server.TakeHanded(e, rest, job, name);
        claimed := ClaimedEntry(e, Some(Claim(e, job, attempt, name)));
    }

    /** The entries the server found idle are handed to this worker at once, then rejected or
        given their next attempt one by one. */
    method ReclaimStale(stale: seq<nat>) returns (claimed: seq<ClaimedEntry>)
      requires server.Valid()
      requires forall i :: 0 <= i < |stale| ==> stale[i] in server.pel && stale[i] < |server.stream|
      requires forall i, j :: 0 <= i < j < |stale| ==> stale[i] != stale[j]
      modifies server
      ensures server.Valid()
      ensures Leads(old(server.sys), Takeovers(stale, name), server.sys)
      ensures Answers(stale, claimed, server.sys)
    {
      hide Next, Created, Enabled, Server.Valid, Server.Handing, Server.Encodes, PT.Reachable, Leads, Answers;
      claimed := [];
      ghost var s0 := server.sys;
      ghost var steps := Takeovers(stale, name);
      server.AutoClaim(stale, name);
      var i := 0;
      assert stale[0..] == stale && stale[..0] == [] && steps[..0] == [];
      LeadsNowhere(s0);
      while i < |stale|
        invariant 0 <= i <= |stale| == |steps|
        invariant Leads(s0, steps[..i], server.sys)
        invariant server.Handing(stale[i..], name)
        invariant Answers(stale[..i], claimed, server.sys)
      {
        Slices(stale, i);
        Slices(steps, i);
        ghost var before := server.sys;
        var entry := TakeOver(stale[i], stale[i + 1..]);
        LeadsOn(s0, steps[..i], before, steps[i], server.sys);
        AnswersOn(stale[..i], claimed, before, stale[i], name);
        claimed := claimed + [entry];
        i := i + 1;
      }
      assert steps[..i] == steps && stale[..i] == stale && stale[i..] == [];
      server.AllHanded(name);
    }

    /** A rejected entry is only acknowledged; a claim is completed when it is still current. */
    method Ack(entry: ClaimedEntry, now: real) returns (done: bool)
      requires server.Valid()
      requires entry.claim.Some? ==> entry.claim.value in server.sys.claims
      requires entry.claim.None? ==> entry.entry !in server.pel
      modifies server
      ensures server.Valid()
      ensures match entry.claim
              case None => done && server.sys == old(server.sys)
              case Some(c) =>
                && done == IsCurrent(old(server.sys).redis, c)
                && server.sys == System(CompleteIfCurrent(old(server.sys).redis, c, now), old(server.sys).claims - {c})
      ensures server.retry == old(server.retry)
    {
      match entry.claim
      case None =>
        assert server.pel - {entry.entry} == server.pel;
        server.Xack(entry.entry);
        done := true;
      case Some(c) =>
        done := server.CompleteScript(c, now);
    }

    /** Retry while attempts are left, otherwise fail for good. The retry stands in the ZSET under
        the printed job, due after the base delay doubled once per earlier attempt, or the cap. */
    method HandleTransientFailure(c: Claim, now: real, reason: string) returns (done: bool)
      requires server.Valid() && c in server.sys.claims
      modifies server
      ensures server.Valid()
      ensures c.attempt >= 1 && done == IsCurrent(old(server.sys).redis, c)
      ensures server.sys == Next(old(server.sys), Finalising(c, Transient(reason), now, now + BackoffSeconds(retryBase, retryMax, c.attempt)))
      ensures server.retry ==
              if done && c.attempt < c.job.maxAttempts
              then old(server.retry)[Print(c.job) := now + (var delay := retryBase * Numbers.Power(2, c.attempt - 1) as real;
                                                           if delay < retryMax then delay else retryMax)]
              else old(server.retry)
    {
      hide PT.Reachable, EncodesRetries, EncodesStream, Parse, Print, Next, Server.Valid, FailIfCurrent, ScheduleRetryIfCurrent,
           BackoffSeconds, ExhaustedReason, IsCurrent, WellFormed, Numbers.Power;
      server.ClaimIsSound(c);
      var due := now + BackoffSeconds(retryBase, retryMax, c.attempt);
      BackoffIs(retryBase, retryMax, c.attempt);
      TransientNext(server.sys, c, reason, now, due);
      PrintedParses(c.job);
      if c.attempt >= c.job.maxAttempts {
        done := server.FailScript(c, now, ExhaustedReason(c.job, reason));
      } else {
        done := server.ScheduleRetryScript(c, now, due, reason, Print(c.job));
      }
    }

    /** Everything that happens after a handler has ended: one finalising step of the protocol. */
    method ProcessClaim(c: Claim, verdict: Verdict, now: real) returns (done: bool)
      requires server.Valid() && c in server.sys.claims
      modifies server
      ensures server.Valid()
      ensures c.attempt >= 1 && done == IsCurrent(old(server.sys).redis, c)
      ensures server.sys == Next(old(server.sys), Finalising(c, verdict, now, now + BackoffSeconds(retryBase, retryMax, c.attempt)))
      ensures server.retry ==
              if done && verdict.Transient? && c.attempt < c.job.maxAttempts
              then old(server.retry)[Print(c.job) := now + (var delay := retryBase * Numbers.Power(2, c.attempt - 1) as real;
                                                           if delay < retryMax then delay else retryMax)]
              else old(server.retry)
    {
      server.ClaimIsSound(c);
      hide PT.Reachable, EncodesRetries, EncodesStream, Parse, Print;
      match verdict
      case Transient(reason) =>
        done := HandleTransientFailure(c, now, reason);
      case Permanent(reason) =>
        done := server.FailScript(c, now, reason);
      case Returned(Some(result)) =>
        done := server.CommitResultScript(c, result);
      case Returned(None) =>
        done := Ack(ClaimedEntry(c.entry, Some(c)), now);
    }

    /** Exactly the due retries, up to the batch size and earliest first, move from the ZSET to
        the end of the stream; every other retry stays. */
    method PromoteDueRetries(now: real, limit: nat, ids: nat -> string) returns (promoted: nat, ghost due: seq<Fields>)
      requires server.Valid()
      modifies server
      ensures server.Valid()
      ensures promoted == |due| <= limit
      ensures forall p :: p in due ==> p in old(server.retry) && old(server.retry)[p] <= now
      ensures forall i, j :: 0 <= i < j < |due| ==> due[i] != due[j] && old(server.retry)[due[i]] <= old(server.retry)[due[j]]
      ensures forall p :: p in old(server.retry) && old(server.retry)[p] <= now && p !in due ==>
                |due| == limit && forall q :: q in due ==> old(server.retry)[q] <= old(server.retry)[p]
      ensures server.retry == old(server.retry) - Elements(due)
      ensures server.stream == old(server.stream) + Stamped(due, ids)
    {
      hide Server.Valid;
      var members := server.DueRetries(now, limit);
      promoted := server.PromoteMembers(members, ids);
      due := members;
    }
  }

  predicate Distinct(members: seq<Fields>) {
    forall i, j :: 0 <= i < j < |members| ==> members[i] != members[j]
  }

  function Elements(members: seq<Fields>): set<Fields> {
    set p | p in members
  }

  /** The stream entries that the promoted members become. */
  function Stamped(members: seq<Fields>, ids: nat -> string): seq<RawEntry> {
    if |members| == 0 then []
    else Stamped(members[..|members| - 1], ids) + [RawEntry(ids(|members| - 1), members[|members| - 1])]
  }

  /** The first `i` members have moved from the ZSET to the stream. */
  ghost predicate Promoted(retry0: map<Fields, real>, stream0: seq<RawEntry>, members: seq<Fields>, ids: nat -> string,
                           i: nat, retry: map<Fields, real>, stream: seq<RawEntry>)
  {
    && i <= |members|
    && retry == retry0 - Elements(members[..i])
    && stream == stream0 + Stamped(members[..i], ids)
  }

  lemma NonePromoted(retry: map<Fields, real>, stream: seq<RawEntry>, members: seq<Fields>, ids: nat -> string)
    ensures Promoted(retry, stream, members, ids, 0, retry, stream)
  {
    assert Elements(members[..0]) == {};
    assert stream + [] == stream;
  }

  lemma NextPromoted(retry0: map<Fields, real>, stream0: seq<RawEntry>, members: seq<Fields>, ids: nat -> string,
                     i: nat, retry: map<Fields, real>, stream: seq<RawEntry>)
    requires i < |members| && Elements(members) <= retry0.Keys && Distinct(members)
    requires Promoted(retry0, stream0, members, ids, i, retry, stream)
    ensures members[i] in retry
    ensures Promoted(retry0, stream0, members, ids, i + 1, retry - {members[i]}, stream + [RawEntry(ids(i), members[i])])
  {
    assert members[i] in Elements(members) && members[i] !in members[..i];
    assert members[..i + 1] == members[..i] + [members[i]];
    assert members[..i + 1][..i] == members[..i];
  }

  lemma AllPromoted(retry0: map<Fields, real>, stream0: seq<RawEntry>, members: seq<Fields>, ids: nat -> string,
                    retry: map<Fields, real>, stream: seq<RawEntry>)
    requires Promoted(retry0, stream0, members, ids, |members|, retry, stream)
    ensures retry == retry0 - Elements(members) && stream == stream0 + Stamped(members, ids)
  {
    assert members[..|members|] == members;
  }

  lemma TransientNext(s: System, c: Claim, reason: string, now: real, due: real)
    requires c in s.claims
    ensures Next(s, Finalising(c, Transient(reason), now, due)) ==
            System(if c.attempt >= c.job.maxAttempts then FailIfCurrent(s.redis, c, now, ExhaustedReason(c.job, reason))
                   else ScheduleRetryIfCurrent(s.redis, c, now, due, reason),
                   s.claims - {c})
  {
  }

  /** All of them are pending entries of the stream. */
  predicate Held(entries: seq<nat>, pel: map<nat, string>, length: nat) {
    forall e :: e in entries ==> e in pel && e < length
  }

  lemma HeldRest(e: nat, rest: seq<nat>, pel: map<nat, string>, length: nat, worker: string)
    requires Held([e] + rest, pel, length) && e !in rest
    ensures e in pel && e < length
    ensures Held(rest, pel - {e}, length) && Held(rest, pel[e := worker], length)
  {
    assert e in [e] + rest && forall d :: d in rest ==> d in [e] + rest;
  }

  lemma HandedRest(pel: map<nat, string>, e: nat, rest: seq<nat>, worker: string)
    requires e !in rest
    ensures pel + HandedTo([e] + rest, worker) == pel[e := worker] + HandedTo(rest, worker)
    ensures (pel + HandedTo([e] + rest, worker)) - {e} == (pel - {e}) + HandedTo(rest, worker)
  {
  }

  lemma Slices<T>(s: seq<T>, i: nat)
    requires i < |s|
    ensures s[i..] == [s[i]] + s[i + 1..] && s[..i + 1] == s[..i] + [s[i]]
  {
  }

  /** The steps lead from one system to the other. */
  ghost predicate Leads(s: System, steps: seq<Step>, t: System) {
    Feasible(s, steps) && After(s, steps) == t
  }

  lemma LeadsNowhere(s: System)
    ensures Leads(s, [], s) && Answers([], [], s)
  {
  }

  lemma LeadsOn(s: System, steps: seq<Step>, t: System, step: Step, u: System)
    requires Leads(s, steps, t) && StepsTo(t, step, u)
    ensures Leads(s, steps + [step], u)
  {
    PT.Extend(s, steps, step);
  }

  /** One answer for each entry: a claim of its job that is held, exactly when the entry is well formed. */
  ghost predicate Answers(entries: seq<nat>, claimed: seq<ClaimedEntry>, s: System) {
    && |claimed| == |entries|
    && (forall i :: 0 <= i < |entries| ==> entries[i] < |s.redis.stream| && AnswersEntry(claimed[i], entries[i], s))
  }

  ghost predicate AnswersEntry(answer: ClaimedEntry, e: nat, s: System)
    requires e < |s.redis.stream|
  {
    && answer.entry == e
    && (answer.claim.Some? <==> s.redis.stream[e].Valid?)
    && (answer.claim.Some? ==>
          answer.claim.value in s.claims && answer.claim.value.entry == e && answer.claim.value.job == s.redis.stream[e].job)
  }

  lemma AnswersOn(entries: seq<nat>, claimed: seq<ClaimedEntry>, s: System, e: nat, worker: string)
    requires Answers(entries, claimed, s) && Enabled(s, Reclaiming(e, worker))
    ensures Answers(entries + [e], claimed + [ClaimedEntry(e, Created(s, Reclaiming(e, worker)))], Next(s, Reclaiming(e, worker)))
  {
  }
}
