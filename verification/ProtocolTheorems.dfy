/** What the protocol guarantees, over every run and every reachable state. */
module ProtocolTheorems {
  import opened Wrappers
  import opened Jobs
  import opened Protocol
  import opened ProtocolInvariant
  import opened Outcome
  import Text

  ghost predicate Reachable(s: System) {
    exists steps: seq<Step> :: Feasible(INITIAL, steps) && After(INITIAL, steps) == s
  }

  lemma ReachableInv(s: System)
    requires Reachable(s)
    ensures Inv(s)
  {
    var steps: seq<Step> :| Feasible(INITIAL, steps) && After(INITIAL, steps) == s;
    InitialInv();
    RunKeeps(INITIAL, steps);
  }

  lemma KnownLives(s: System, id: string) returns (j: Job)
    requires Inv(s) && Known(s.redis, id)
    ensures Live(View(s, id), j) && j.jobId == id
  {
    KnownJob(s.redis, id);
    j := TheJob(s, id);
  }

  // ---------------------------------------------------------------------------
  // Runs
  // ---------------------------------------------------------------------------

  lemma {:induction false} FeasiblePrefix(s: System, steps: seq<Step>, k: nat)
    requires Feasible(s, steps) && k <= |steps|
    ensures Feasible(s, steps[..k])
    decreases |steps|
  {
    if k < |steps| {
      FeasiblePrefix(s, steps[..|steps| - 1], k);
      assert steps[..|steps| - 1][..k] == steps[..k];
    } else {
      assert steps[..k] == steps;
    }
  }

  lemma Extend(s: System, steps: seq<Step>, step: Step)
    requires Feasible(s, steps) && Enabled(After(s, steps), step)
    ensures Feasible(s, steps + [step]) && After(s, steps + [step]) == Next(After(s, steps), step)
  {
    assert (steps + [step])[..|steps|] == steps;
  }

  /** A run can be continued by a run from where it ended. */
  lemma {:induction false} Continue(s: System, a: seq<Step>, b: seq<Step>)
    requires Feasible(s, a) && Feasible(After(s, a), b)
    ensures Feasible(s, a + b) && After(s, a + b) == After(After(s, a), b)
    decreases |b|
  {
    hide Next, Enabled;
    if |b| == 0 {
      assert a + b == a;
    } else {
      var front, last := b[..|b| - 1], b[|b| - 1];
      Continue(s, a, front);
      Extend(s, a + front, last);
      Extend(After(s, a), front, last);
      assert front + [last] == b;
      assert a + front + [last] == a + b;
    }
  }

  lemma Single(s: System, step: Step)
    requires Enabled(s, step)
    ensures Feasible(s, [step]) && After(s, [step]) == Next(s, step)
  {
    assert [step][..0] == [];
    assert Feasible(s, []) && After(s, []) == s;
  }

  /** The system before step `k` of a run. */
  function Before(s: System, steps: seq<Step>, k: nat): System
    requires k <= |steps| && Feasible(s, steps[..k])
  {
    After(s, steps[..k])
  }

  lemma StepOfRun(s: System, steps: seq<Step>, k: nat)
    requires Feasible(s, steps) && k < |steps|
    ensures Feasible(s, steps[..k]) && Feasible(s, steps[..k + 1])
    ensures Enabled(Before(s, steps, k), steps[k])
    ensures Before(s, steps, k + 1) == Next(Before(s, steps, k), steps[k])
  {
    FeasiblePrefix(s, steps, k);
    FeasiblePrefix(s, steps, k + 1);
    assert steps[..k + 1][..k] == steps[..k];
  }

  // ---------------------------------------------------------------------------
  // Token conservation
  // ---------------------------------------------------------------------------

  /** Every job that has been produced is in exactly one place, whatever happened since. */
  lemma TokenConservation(s: System, id: string)
    requires Reachable(s) && Known(s.redis, id)
    ensures |Queued(s.redis, id)| + |Pending(s.redis, id)| + |Delayed(s.redis, id)|
            + (if Settled(Lookup(s.redis.state, id)) then 1 else 0) == 1
  {
    ReachableInv(s);
    var j := KnownLives(s, id);
    assert Tokens(View(s, id)) == 1;
  }

  // ---------------------------------------------------------------------------
  // Outcomes
  // ---------------------------------------------------------------------------

  /** The outcome of a produced job is terminal exactly when no token of it is left to process. */
  lemma OutcomeTracksToken(s: System, id: string)
    requires Reachable(s) && Known(s.redis, id)
    ensures IsTerminal(s.redis, id) <==> Queued(s.redis, id) == {} && Pending(s.redis, id) == {} && Delayed(s.redis, id) == {}
  {
    ReachableInv(s);
    var j := KnownLives(s, id);
    assert IsTerminal(s.redis, id) <==> Settled(View(s, id).hash);
  }

  /** A finalise writes at most the hash and the result of its own job, and only if it is current. */
  lemma FinaliseElsewhere(r: Redis, c: Claim, verdict: Verdict, now: real, due: real, id: string)
    ensures var r' := Finalise(r, c, verdict, now, due);
            id != c.job.jobId || !IsCurrent(r, c) ==> Lookup(r'.state, id) == Lookup(r.state, id) && Lookup(r'.results, id) == Lookup(r.results, id)
  {
  }

  /** Taking or rejecting an entry writes only the hash of the job or key it carries. */
  lemma DeliveryElsewhere(s: System, step: Step, id: string)
    requires Enabled(s, step) && (step.Claiming? || step.Reclaiming?)
    ensures var e := if step.Claiming? then s.redis.cursor else step.pending;
            var r, r' := s.redis, Next(s, step).redis;
            && r'.results == r.results
            && (!EntryOf(r.stream[e], id) && r.stream[e] != Malformed(id) ==> Lookup(r'.state, id) == Lookup(r.state, id))
            && (r.stream[e] == Malformed(id) && HasStatus(Lookup(r.state, id), Rejected) ==> HasStatus(Lookup(r'.state, id), Rejected))
  {
    var e := if step.Claiming? then s.redis.cursor else step.pending;
    match s.redis.stream[e]
    case Valid(job) =>
    case Malformed(key) =>
  }

  /** A step leaves the hash and the result of a settled job alone. */
  lemma SettledStays(s: System, step: Step, id: string)
    requires Inv(s) && Enabled(s, step)
    requires Settled(Lookup(s.redis.state, id))
    ensures var r, r' := s.redis, Next(s, step).redis;
            Lookup(r'.state, id) == Lookup(r.state, id) && Lookup(r'.results, id) == Lookup(r.results, id)
  {
    SettledJob(s, id);
    match step
    case Claiming(worker) => DeliveryElsewhere(s, step, id);
    case Reclaiming(e, worker) => DeliveryElsewhere(s, step, id);
    case Finalising(c, verdict, now, due) => FinaliseElsewhere(s.redis, c, verdict, now, due, id);
    case _ =>
  }

  /** A settled job has no entry to deliver or to reclaim and no current claim. */
  lemma SettledJob(s: System, id: string)
    requires Inv(s) && Settled(Lookup(s.redis.state, id))
    ensures s.redis.cursor < |s.redis.stream| ==>
              !EntryOf(s.redis.stream[s.redis.cursor], id) && s.redis.stream[s.redis.cursor] != Malformed(id)
    ensures forall e :: e in s.redis.pel ==> !EntryOf(s.redis.stream[e], id) && s.redis.stream[e] != Malformed(id)
    ensures forall c :: c in s.claims && c.job.jobId == id ==> !IsCurrent(s.redis, c)
  {
    var v := View(s, id);
    assert Good(v);
    var j :| j in v.jobs && Live(v, j);
    assert v.pending == {} && v.queued == {} && !v.junk;
    forall e: nat | e < |s.redis.stream| ensures s.redis.stream[e] != Malformed(id) {}
    forall c | c in s.claims && c.job.jobId == id ensures !IsCurrent(s.redis, c) {
      assert c in v.claims;
    }
    forall e | e in s.redis.pel ensures !EntryOf(s.redis.stream[e], id) {
      assert e !in v.pending;
    }
    assert s.redis.cursor !in v.queued;
  }

  lemma RejectedStays(s: System, step: Step, id: string)
    requires Inv(s) && Enabled(s, step)
    requires HasStatus(Lookup(s.redis.state, id), Rejected)
    ensures HasStatus(Lookup(Next(s, step).redis.state, id), Rejected)
  {
    var v := View(s, id);
    assert Good(v);
    assert Unborn(v);
    match step
    case Claiming(worker) =>
      assert s.redis.cursor !in v.queued;
      DeliveryElsewhere(s, step, id);
    case Reclaiming(e, worker) =>
      assert e !in v.pending;
      DeliveryElsewhere(s, step, id);
    case Finalising(c, verdict, now, due) =>
      assert c.job.jobId == id ==> c in v.claims;
      FinaliseElsewhere(s.redis, c, verdict, now, due, id);
    case _ =>
  }

  /** Once a terminal outcome has been reported it is reported for ever, whatever runs next. */
  lemma {:induction false} TerminalIsAbsorbing(s: System, steps: seq<Step>, id: string)
    requires Inv(s) && Feasible(s, steps)
    requires IsTerminal(s.redis, id)
    ensures IsTerminal(After(s, steps).redis, id)
    ensures ResolveOutcome(After(s, steps).redis, id).outcome == ResolveOutcome(s.redis, id).outcome
    ensures Known(s.redis, id) ==> ResolveOutcome(After(s, steps).redis, id) == ResolveOutcome(s.redis, id)
    ensures Settled(Lookup(s.redis.state, id)) ==> ResolveOutcome(After(s, steps).redis, id) == ResolveOutcome(s.redis, id)
    ensures Lookup(s.redis.state, id).value.status == Lookup(After(s, steps).redis.state, id).value.status
  {
    if Known(s.redis, id) {
      var j := KnownLives(s, id);
      assert Settled(View(s, id).hash);
    }
    if |steps| > 0 {
      var front := steps[..|steps| - 1];
      TerminalIsAbsorbing(s, front, id);
      RunKeeps(s, front);
      var mid := After(s, front);
      if Settled(Lookup(mid.redis.state, id)) {
        SettledStays(mid, steps[|steps| - 1], id);
      } else {
        RejectedStays(mid, steps[|steps| - 1], id);
      }
    }
  }

  // ---------------------------------------------------------------------------
  // Fencing
  // ---------------------------------------------------------------------------

  lemma FinaliseCurrent(r: Redis, c: Claim, verdict: Verdict, now: real, due: real)
    requires IsCurrent(r, c)
    ensures var r' := Finalise(r, c, verdict, now, due);
            r'.pel == r.pel - {c.entry} && r'.stream == r.stream
            && c.job.jobId in r'.state
            && (var status := r'.state[c.job.jobId].status; status == Completed || status == Failed || status == RetryScheduled)
            && r'.state[c.job.jobId].attempt == Some(c.attempt)
  {
    match verdict
    case Returned(None) =>
    case Returned(Some(result)) =>
    case Transient(reason) =>
    case Permanent(reason) =>
  }

  /** A finalise takes effect exactly when its claim holds the attempt on record; then the job
      leaves the pending list, and otherwise Redis is not written at all. */
  lemma FinaliseFenced(s: System, c: Claim, verdict: Verdict, now: real, due: real)
    requires Reachable(s) && c in s.claims
    ensures var r' := Next(s, Finalising(c, verdict, now, due)).redis;
            if c.attempt == Attempts(Lookup(s.redis.state, c.job.jobId))
            then c.entry in s.redis.pel && Pending(r', c.job.jobId) == {} && !HasStatus(Lookup(r'.state, c.job.jobId), Claimed)
            else r' == s.redis
  {
    ReachableInv(s);
    if c.attempt == Attempts(Lookup(s.redis.state, c.job.jobId)) {
      assert Good(View(s, c.job.jobId)) && c in View(s, c.job.jobId).claims;
      CurrentReleases(s, c, verdict, now, due);
    }
  }

  lemma CurrentReleases(s: System, c: Claim, verdict: Verdict, now: real, due: real)
    requires Inv(s) && c in s.claims && IsCurrent(s.redis, c)
    ensures var r' := Finalise(s.redis, c, verdict, now, due); var id := c.job.jobId;
            c.entry in s.redis.pel && Pending(r', id) == {} && !HasStatus(Lookup(r'.state, id), Claimed)
  {
    var id := c.job.jobId;
    CurrentClaim(s, c);
    FinaliseCurrent(s.redis, c, verdict, now, due);
    assert Pending(s.redis, id) == {c.entry};
    hide Inv, View, Finalise, Live;
    var r' := Finalise(s.redis, c, verdict, now, due);
    assert c.entry in Pending(s.redis, id);
    forall e: nat ensures e !in Pending(r', id) {
      assert e in Pending(r', id) ==> e in Pending(s.redis, id);
    }
  }

  /** What each outcome means, in any reachable state: a match is reported exactly for the ids that
      the match index lists under some target and version. */
  lemma OutcomeMeans(s: System, id: string)
    requires Reachable(s)
    ensures var r, h := s.redis, Lookup(s.redis.state, id);
            match ResolveOutcome(r, id).outcome
            case MATCH => (exists key :: key in r.index && id in r.index[key]) && id in r.results
            case NO_MATCH => id in r.results && r.results[id].result.decision == NoMatch
            case PERMANENT_ERROR => HasStatus(h, Failed) || (id in r.results && r.results[id].result.decision == ProcessingFailure)
            case SKIPPED => id !in r.results && (HasStatus(h, Rejected) || HasStatus(h, Completed))
            case RETRYABLE_ERROR => id !in r.results && HasStatus(h, RetryScheduled)
            case PENDING => id !in r.results && (h.None? || HasStatus(h, Claimed))
    ensures ResolveOutcome(s.redis, id).outcome == MATCH <==> exists key :: key in s.redis.index && id in s.redis.index[key]
  {
    ReachableInv(s);
    CommitAgreement(s, id);
    assert Good(View(s, id));
    var r := s.redis;
    if id in r.results {
      var rec := r.results[id];
      var key := (rec.targetId, rec.targetVersion);
      assert key in r.index && id in r.index[key] <==> rec.result.decision == Match;
    }
    hide Inv, Reachable, View, Good;
  }

  /** What a client sees while the job's current claim is held. */
  lemma OutcomeWhileHeld(s: System, c: Claim)
    requires Reachable(s) && c in s.claims && IsCurrent(s.redis, c)
    ensures ResolveOutcome(s.redis, c.job.jobId) == OutcomeView(c.job.jobId, PENDING, Some(c.attempt), Some(c.worker), None, None)
  {
    ReachableInv(s);
    assert Good(View(s, c.job.jobId)) && c in View(s, c.job.jobId).claims;
    CurrentClaim(s, c);
  }

  /** A malformed entry is reported as skipped under its key and is no longer pending. */
  lemma RejectionIsReported(s: System, step: Step, e: nat, key: string)
    requires Enabled(s, step)
    requires (step.Claiming? && e == s.redis.cursor) || (step.Reclaiming? && e == step.pending)
    requires s.redis.stream[e] == Malformed(key)
    ensures var r' := Next(s, step).redis;
            e !in r'.pel && ResolveOutcome(r', key) == OutcomeView(key, SKIPPED, None, None, Some("invalid job entry"), None)
  {
  }

  /** What a client sees once the current claim of a job has been finalised, and nothing of an earlier attempt. */
  lemma OutcomeOfFinalise(s: System, c: Claim, verdict: Verdict, now: real, due: real)
    requires Reachable(s) && c in s.claims && IsCurrent(s.redis, c)
    ensures var o := ResolveOutcome(Next(s, Finalising(c, verdict, now, due)).redis, c.job.jobId);
            && o.jobId == c.job.jobId && o.attempt == Some(c.attempt)
            && match verdict
               case Returned(None) => o.outcome == SKIPPED && o.reason == Some(NO_RESULT) && o.record == None
               case Returned(Some(result)) =>
                 && o.outcome == (match result.decision case Match => MATCH case NoMatch => NO_MATCH case ProcessingFailure => PERMANENT_ERROR)
                 && o.workerId == Some(c.worker)
                 && o.record == Some(ResultRecord(c.job.jobId, c.job.mediaEvidenceId, c.job.targetId, c.job.targetVersion, c.attempt, c.worker,
                                                  result.(summary := if result.summary == Some("") then None else result.summary,
                                                          evidence := if result.evidence == Some("") then None else result.evidence), 1))
                 && o.reason == (if result.decision == ProcessingFailure && result.summary != Some("") then result.summary else None)
               case Transient(reason) =>
                 if c.attempt < c.job.maxAttempts then o.outcome == RETRYABLE_ERROR && o.reason == Some(reason)
                 else o.outcome == PERMANENT_ERROR
                      && o.reason == Some("max_attempts (" + Text.Decimal(c.job.maxAttempts) + ") exhausted: " + reason)
               case Permanent(reason) => o.outcome == PERMANENT_ERROR && o.reason == Some(reason)
  {
    ReachableInv(s);
    CurrentClaim(s, c);
    var v := View(s, c.job.jobId);
    assert Good(v) && c in v.claims;
    assert v.result == None && Lookup(s.redis.results, c.job.jobId) == None;
    hide Inv, Good, View, Reachable;
  }

  /** What the finalise of a current claim leaves on record, and that it moves nothing else. */
  lemma FinaliseRecords(s: System, c: Claim, verdict: Verdict, now: real, due: real)
    requires Reachable(s) && c in s.claims && IsCurrent(s.redis, c)
    ensures var r, r' := s.redis, Next(s, Finalising(c, verdict, now, due)).redis;
            && c.job.jobId in r'.state
            && r'.pel == r.pel - {c.entry} && r'.stream == r.stream && r'.cursor == r.cursor
            && ((verdict.Returned? && verdict.result.Some?) || (r'.results == r.results && r'.events == r.events && r'.index == r.index))
            && var h := r'.state[c.job.jobId];
            && h.attempt == Some(c.attempt) && h.workerId == Some(c.worker)
            && (h.status == RetryScheduled <==> verdict.Transient? && c.attempt < c.job.maxAttempts)
            && (h.status == Completed <==> verdict.Returned?)
            && (h.status == Completed ==>
                  h.completedAt == Some(match verdict.result case Some(result) => result.completedAt case None => now))
            && (h.status == Failed ==> h.failedAt == Some(now))
            && (if h.status == RetryScheduled
                then h.scheduledAt == Some(now) && h.nextAttemptAt == Some(due) && r'.retry == r.retry[c.job := due]
                else r'.retry == r.retry)
  {
    ReachableInv(s);
    assert Good(View(s, c.job.jobId)) && c in View(s, c.job.jobId).claims;
    CurrentClaim(s, c);
    FinaliseCurrent(s.redis, c, verdict, now, due);
    hide Inv, Reachable, View, Good, Live;
  }

  lemma FinaliseAttempts(r: Redis, c: Claim, verdict: Verdict, now: real, due: real, id: string)
    ensures Attempts(Lookup(Finalise(r, c, verdict, now, due).state, id)) == Attempts(Lookup(r.state, id))
  {
    if id == c.job.jobId && IsCurrent(r, c) {
      FinaliseCurrent(r, c, verdict, now, due);
    } else {
      FinaliseElsewhere(r, c, verdict, now, due, id);
    }
  }

  /** Attempts never drop, and a claim gets the attempt after the one on record. */
  lemma AttemptsGrow(s: System, step: Step, id: string)
    requires Enabled(s, step)
    ensures Attempts(Lookup(s.redis.state, id)) <= Attempts(Lookup(Next(s, step).redis.state, id))
    ensures Created(s, step).Some? && Created(s, step).value.job.jobId == id ==>
              Created(s, step).value.attempt == Attempts(Lookup(Next(s, step).redis.state, id)) == Attempts(Lookup(s.redis.state, id)) + 1
  {
    if step.Finalising? {
      FinaliseAttempts(s.redis, step.claim, step.verdict, step.now, step.due, id);
    }
  }

  lemma {:induction false} AttemptsNeverDrop(s: System, steps: seq<Step>, id: string)
    requires Feasible(s, steps)
    ensures Attempts(Lookup(s.redis.state, id)) <= Attempts(Lookup(After(s, steps).redis.state, id))
  {
    if |steps| > 0 {
      var front := steps[..|steps| - 1];
      AttemptsNeverDrop(s, front, id);
      AttemptsGrow(After(s, front), steps[|steps| - 1], id);
    }
  }

  lemma AttemptsBetween(s: System, steps: seq<Step>, i: nat, k: nat, id: string)
    requires Feasible(s, steps) && i <= k <= |steps|
    ensures Feasible(s, steps[..i]) && Feasible(s, steps[..k])
    ensures Attempts(Lookup(Before(s, steps, i).redis.state, id)) <= Attempts(Lookup(Before(s, steps, k).redis.state, id))
    decreases k - i
  {
    FeasiblePrefix(s, steps, i);
    FeasiblePrefix(s, steps, k);
    if i < k {
      AttemptsBetween(s, steps, i, k - 1, id);
      StepOfRun(s, steps, k - 1);
      AttemptsGrow(Before(s, steps, k - 1), steps[k - 1], id);
    }
  }

  /** Step `i` of the run created claim `c`. */
  ghost predicate CreatesClaim(s: System, steps: seq<Step>, i: nat, c: Claim) {
    && i < |steps|
    && Feasible(s, steps[..i])
    && Enabled(Before(s, steps, i), steps[i])
    && Created(Before(s, steps, i), steps[i]) == Some(c)
  }

  /** Of two claims on one job the later one holds the larger attempt. */
  lemma ClaimsAreOrdered(s: System, steps: seq<Step>, i: nat, k: nat, c: Claim, d: Claim)
    requires Feasible(s, steps) && i < k
    requires CreatesClaim(s, steps, i, c) && CreatesClaim(s, steps, k, d)
    requires c.job.jobId == d.job.jobId
    ensures c.attempt < d.attempt
  {
    var id := c.job.jobId;
    StepOfRun(s, steps, i);
    AttemptsGrow(Before(s, steps, i), steps[i], id);
    AttemptsBetween(s, steps, i + 1, k, id);
    AttemptsGrow(Before(s, steps, k), steps[k], id);
  }

  lemma StaleFinalise(r: Redis, c: Claim, verdict: Verdict, now: real, due: real)
    requires c.attempt < Attempts(Lookup(r.state, c.job.jobId))
    ensures Finalise(r, c, verdict, now, due) == r
  {
    assert !IsCurrent(r, c);
  }

  /** When a later claim exists, the attempt on record is past the earlier claim for good. */
  lemma OvertakenClaim(s: System, steps: seq<Step>, i: nat, k: nat, l: nat, c: Claim, d: Claim)
    requires Feasible(s, steps) && i < k < l < |steps|
    requires CreatesClaim(s, steps, i, c) && CreatesClaim(s, steps, k, d)
    requires c.job.jobId == d.job.jobId
    ensures Feasible(s, steps[..l])
    ensures c.attempt < Attempts(Lookup(Before(s, steps, l).redis.state, c.job.jobId))
  {
    ClaimsAreOrdered(s, steps, i, k, c, d);
    StepOfRun(s, steps, k);
    assert Created(Before(s, steps, k), steps[k]) == Some(d);
    hide CreatesClaim, Created, Next, Enabled, Attempts, After;
    AttemptsGrow(Before(s, steps, k), steps[k], c.job.jobId);
    AttemptsBetween(s, steps, k + 1, l, c.job.jobId);
  }

  /** A worker that lost its claim to a later one writes nothing, however late it finalises. */
  lemma LostClaimWritesNothing(s: System, steps: seq<Step>, i: nat, k: nat, l: nat, c: Claim, d: Claim)
    requires Feasible(s, steps) && i < k < l < |steps|
    requires CreatesClaim(s, steps, i, c) && CreatesClaim(s, steps, k, d)
    requires c.job.jobId == d.job.jobId
    requires steps[l].Finalising? && steps[l].claim == c
    ensures Feasible(s, steps[..l]) && Feasible(s, steps[..l + 1])
    ensures Before(s, steps, l + 1).redis == Before(s, steps, l).redis
  {
    OvertakenClaim(s, steps, i, k, l, c, d);
    StepOfRun(s, steps, l);
    StaleFinalise(Before(s, steps, l).redis, c, steps[l].verdict, steps[l].now, steps[l].due);
  }

  // ---------------------------------------------------------------------------
  // Commits
  // ---------------------------------------------------------------------------

  /** Result hash, results stream, state hash and match index never disagree. */
  lemma CommitAgreement(s: System, id: string)
    requires Reachable(s)
    ensures |EventsOf(s.redis.events, id)| == if id in s.redis.results then 1 else 0
    ensures id in s.redis.results ==>
              var rec := s.redis.results[id];
              && HasStatus(Lookup(s.redis.state, id), Completed)
              && EventsOf(s.redis.events, id) == [Announcement(rec)]
              && s.redis.state[id].attempt == Some(rec.attempt)
    ensures forall key :: key in s.redis.index && id in s.redis.index[key] <==>
              && id in s.redis.results
              && s.redis.results[id].result.decision == Match
              && key == (s.redis.results[id].targetId, s.redis.results[id].targetVersion)
    ensures forall key :: key in s.redis.index && id in s.redis.index[key] && id in s.redis.results ==>
              s.redis.index[key][id] == s.redis.results[id].result.completedAt
  {
    ReachableInv(s);
    var v := View(s, id);
    assert Good(v);
    assert Lookup(s.redis.results, id) == v.result;
    forall key: (string, string)
      ensures key in s.redis.index && id in s.redis.index[key] ==> (key, s.redis.index[key][id]) in v.matches
      ensures forall score :: (key, score) in v.matches ==> key in s.redis.index && id in s.redis.index[key] && score == s.redis.index[key][id]
    {
      forall score ensures (key, score) in v.matches ==> key in s.redis.index && id in s.redis.index[key] && score == s.redis.index[key][id] {
        MatchesIff(s.redis, id, key, score);
      }
    }
    if !Unborn(v) {
      var j :| j in v.jobs && Live(v, j);
      assert v.result.Some? ==> v.result.value.result.decision == Match ==>
             ((j.targetId, j.targetVersion), v.result.value.result.completedAt) in v.matches;
    }
  }

  // ---------------------------------------------------------------------------
  // Bounded work
  // ---------------------------------------------------------------------------

  /** The step does something to job `id`. */
  predicate Touches(s: System, step: Step, id: string)
    requires Enabled(s, step)
  {
    match step
    case Produce(entry) => EntryOf(entry, id)
    case Claiming(_) => EntryOf(s.redis.stream[s.redis.cursor], id)
    case Reclaiming(e, _) => IsEntry(s.redis, e, id)
    case Delivering(_) => EntryOf(s.redis.stream[s.redis.cursor], id)
    case Passing(e, _) => IsEntry(s.redis, e, id)
    case Finalising(c, _, _, _) => c.job.jobId == id
    case Promoting(job) => job.jobId == id && job in s.redis.retry
    case Crash(c) => c.job.jobId == id
  }

  /** A pending entry of the job changes hands. */
  predicate Reclaims(s: System, step: Step, id: string) {
    || (step.Reclaiming? && IsEntry(s.redis, step.pending, id))
    || (step.Passing? && IsEntry(s.redis, step.passed, id))
  }

  /** An entry of the job is handed to a worker that does not claim it. */
  predicate Drops(s: System, step: Step, id: string)
    requires Enabled(s, step)
  {
    (step.Delivering? || step.Passing?) && Touches(s, step, id)
  }

  predicate Schedules(s: System, step: Step, id: string) {
    && step.Finalising? && step.claim.job.jobId == id && IsCurrent(s.redis, step.claim)
    && step.verdict.Transient? && step.claim.attempt < step.claim.job.maxAttempts
  }

  /** How many steps of a run did something to job `id`; how many of them were lease losses, how
      many put the job on the retry ZSET, and how many handed it to a worker that did not claim it. */
  datatype Work = Work(steps: nat, reclaims: nat, retries: nat, dropped: nat)

  function WorkOn(s: System, steps: seq<Step>, id: string): Work
    requires Feasible(s, steps)
    decreases |steps|
  {
    if |steps| == 0 then Work(0, 0, 0, 0)
    else
      var front := steps[..|steps| - 1];
      var w := WorkOn(s, front, id);
      WorkNext(After(s, front), steps[|steps| - 1], id, w)
  }

  /** The work after one more step. */
  function WorkNext(s: System, step: Step, id: string, w: Work): Work
    requires Enabled(s, step)
  {
    Work(w.steps + (if Touches(s, step, id) then 1 else 0),
         w.reclaims + (if Reclaims(s, step, id) then 1 else 0),
         w.retries + (if Schedules(s, step, id) then 1 else 0),
         w.dropped + (if Drops(s, step, id) then 1 else 0))
  }

  /** The exact balance between the steps taken on a job and what the system records of it. */
  ghost predicate Balanced(s: System, id: string, w: Work)
    requires Shape(s.redis)
  {
    var v := View(s, id);
    && w.steps + |v.claims| == v.entries + 2 * Attempts(v.hash) + w.dropped
    && Attempts(v.hash) + w.dropped == v.delivered + w.reclaims
    && (if v.jobs == {} then w.retries == 0 else w.retries + 1 == v.entries + |v.delayed|)
  }

  lemma JunkIsUnborn(s: System, id: string)
    requires Inv(s) && Junk(s.redis, id)
    ensures Unborn(View(s, id))
  {
    assert Good(View(s, id));
  }

  lemma RejectOther(s: System, e: nat, key: string, id: string)
    requires Shape(s.redis) && e < |s.redis.stream| && s.redis.stream[e] == Malformed(key) && key != id
    ensures View(s.(redis := Reject(s.redis, e, key)), id) == View(s, id)
  {
    var r' := Reject(s.redis, e, key);
    assert Pending(r', id) == Pending(s.redis, id);
    assert Queued(r', id) == Queued(s.redis, id);
    assert JobsOf(r', id) == JobsOf(s.redis, id);
  }

  lemma FinaliseOther(s: System, c: Claim, verdict: Verdict, now: real, due: real, id: string)
    requires Inv(s) && c in s.claims && c.job.jobId != id
    ensures View(Next(s, Finalising(c, verdict, now, due)), id) == View(s, id)
  {
    var s' := Next(s, Finalising(c, verdict, now, due));
    if !IsCurrent(s.redis, c) {
      assert ClaimsOf(s', id) == ClaimsOf(s, id);
      assert s' == s.(claims := s.claims - {c});
    } else {
      var h' := s'.redis.state[c.job.jobId];
      var mid := System(Settle(s.redis, c, h'), s.claims - {c});
      SettleOther(s, c, h', id);
      match verdict
      case Returned(Some(result)) =>
        assert s' == mid.(redis := Published(mid.redis, c, result));
        PublishedOther(mid, c, result, id);
      case Transient(reason) =>
        if c.attempt < c.job.maxAttempts {
          ScheduledView(mid, c.job, due, id);
          assert s' == mid.(redis := mid.redis.(retry := mid.redis.retry[c.job := due]));
        }
      case _ =>
    }
  }

  /** What the balance depends on. */
  ghost predicate SameBalance(v: JobView, v': JobView) {
    && v'.claims == v.claims && v'.entries == v.entries && v'.delivered == v.delivered
    && Attempts(v'.hash) == Attempts(v.hash) && v'.jobs == v.jobs && v'.delayed == v.delayed
  }

  lemma UntouchedEntry(s: System, step: Step, id: string)
    requires Inv(s) && Enabled(s, step) && !Touches(s, step, id)
    requires step.Produce? || step.Promoting? || step.Crash? || step.Finalising?
    ensures Inv(Next(s, step)) && SameBalance(View(s, id), View(Next(s, step), id))
  {
    StepKeeps(s, step);
    match step
    case Produce(entry) =>
      var r' := Next(s, step).redis;
      assert r' == Appended(s.redis, entry);
      if entry == Malformed(id) {
        KnownJob(s.redis, id);
        assert Good(View(s, id));
        assert r'.stream[|s.redis.stream|] == Malformed(id);
        JunkIsUnborn(Next(s, step), id);
      } else {
        AppendOther(s, entry, id);
      }
    case Finalising(c, verdict, now, due) => FinaliseOther(s, c, verdict, now, due, id);
    case Promoting(job) =>
      if job in s.redis.retry {
        PromoteOther(s, job, id);
      }
    case Crash(c) =>
      assert ClaimsOf(Next(s, step), id) == ClaimsOf(s, id);
  }

  lemma UntouchedDelivery(s: System, step: Step, id: string)
    requires Inv(s) && Enabled(s, step) && !Touches(s, step, id)
    requires step.Claiming? || step.Reclaiming?
    ensures Inv(Next(s, step)) && SameBalance(View(s, id), View(Next(s, step), id))
  {
    StepKeeps(s, step);
    var e := if step.Claiming? then s.redis.cursor else step.pending;
    if s.redis.stream[e] == Malformed(id) {
      assert Next(s, step).redis.stream == s.redis.stream;
      JunkIsUnborn(s, id);
      JunkIsUnborn(Next(s, step), id);
    } else if step.Claiming? {
      match s.redis.stream[e]
      case Valid(job) => ClaimOther(s, step.worker, job, id);
      case Malformed(key) =>
        DeliverOther(s, id);
        RejectOther(Delivered(s), e, key, id);
        assert Next(s, step) == Delivered(s).(redis := Reject(Delivered(s).redis, e, key));
    } else {
      match s.redis.stream[e]
      case Valid(job) =>
        TakeOther(s, e, job, step.worker, id);
        assert Next(s, step) == Taken(s, e, job, step.worker);
      case Malformed(key) =>
        RejectOther(s, e, key, id);
        assert Next(s, step) == s.(redis := Reject(s.redis, e, key));
    }
  }

  lemma UntouchedHanding(s: System, step: Step, id: string)
    requires Inv(s) && Enabled(s, step) && !Touches(s, step, id)
    requires step.Delivering? || step.Passing?
    ensures Inv(Next(s, step)) && SameBalance(View(s, id), View(Next(s, step), id))
  {
    StepKeeps(s, step);
    if step.Delivering? {
      DeliveredView(s, step.to, id);
    } else {
      PassingView(s, step.passed, step.to, id);
    }
  }

  lemma BalancedHanding(s: System, step: Step, id: string, w: Work)
    requires Inv(s) && Enabled(s, step) && Touches(s, step, id)
    requires step.Delivering? || step.Passing?
    requires Balanced(s, id, w)
    ensures Inv(Next(s, step))
    ensures Balanced(Next(s, step), id, WorkNext(s, step, id, w))
  {
    StepKeeps(s, step);
    if step.Delivering? {
      DeliveredView(s, step.to, id);
    } else {
      PassingView(s, step.passed, step.to, id);
    }
  }

  /** What taking an entry of a job changes in the balance of that job. */
  ghost predicate TookEntry(v: JobView, v': JobView, c: Claim, first: bool) {
    && v'.claims == v.claims + {c}
    && v'.entries == v.entries && v'.delivered == v.delivered + (if first then 1 else 0)
    && Attempts(v'.hash) == Attempts(v.hash) + 1 && v'.jobs == v.jobs && v'.delayed == v.delayed
  }

  lemma FreshClaimView(s: System, worker: string, job: Job)
    requires Inv(s) && Enabled(s, Claiming(worker)) && s.redis.stream[s.redis.cursor] == Valid(job)
    ensures Shape(Next(s, Claiming(worker)).redis)
    ensures var v := View(s, job.jobId);
            TookEntry(v, View(Next(s, Claiming(worker)), job.jobId), Claim(s.redis.cursor, job, Attempts(v.hash) + 1, worker), true)
  {
    ClaimSameView(s, worker, job);
  }

  lemma ReclaimView(s: System, e: nat, worker: string, job: Job)
    requires Inv(s) && Enabled(s, Reclaiming(e, worker)) && s.redis.stream[e] == Valid(job)
    ensures Shape(Next(s, Reclaiming(e, worker)).redis)
    ensures var v := View(s, job.jobId);
            TookEntry(v, View(Next(s, Reclaiming(e, worker)), job.jobId), Claim(e, job, Attempts(v.hash) + 1, worker), false)
  {
    TakeSame(s, e, job, worker);
    assert Next(s, Reclaiming(e, worker)) == Taken(s, e, job, worker);
  }

  lemma HigherAttemptIsNew(v: JobView, c: Claim)
    requires Good(v) && c.attempt > Attempts(v.hash)
    ensures |v.claims + {c}| == |v.claims| + 1
  {
    assert c !in v.claims;
  }

  lemma ClaimWork(s: System, step: Step, id: string, w: Work)
    requires Enabled(s, step) && Touches(s, step, id)
    requires step.Claiming? || step.Reclaiming?
    ensures WorkNext(s, step, id, w) == w.(steps := w.steps + 1, reclaims := w.reclaims + if step.Reclaiming? then 1 else 0)
  {
  }

  /** Taking an entry gives out one claim more, with the next attempt. */
  lemma ClaimTakes(s: System, step: Step, id: string)
    requires Inv(s) && Enabled(s, step) && Touches(s, step, id)
    requires step.Claiming? || step.Reclaiming?
    ensures Shape(Next(s, step).redis) && View(s, id).jobs != {}
    ensures var v, v' := View(s, id), View(Next(s, step), id);
            exists c :: TookEntry(v, v', c, step.Claiming?) && |v'.claims| == |v.claims| + 1
  {
    var v := View(s, id);
    var e := if step.Claiming? then s.redis.cursor else step.pending;
    var job := s.redis.stream[e].job;
    var c := Claim(e, job, Attempts(v.hash) + 1, step.worker);
    assert Good(v);
    HigherAttemptIsNew(v, c);
    EntryKnown(s, e, id);
    if step.Claiming? {
      FreshClaimView(s, step.worker, job);
    } else {
      ReclaimView(s, e, step.worker, job);
    }
    hide View, Next, Good, Inv;
    assert TookEntry(v, View(Next(s, step), id), c, step.Claiming?);
  }

  lemma BalancedClaim(s: System, step: Step, id: string, w: Work)
    requires Inv(s) && Enabled(s, step) && Touches(s, step, id)
    requires step.Claiming? || step.Reclaiming?
    requires Balanced(s, id, w)
    ensures Shape(Next(s, step).redis)
    ensures Balanced(Next(s, step), id, WorkNext(s, step, id, w))
  {
    hide View, Next, WorkNext, Inv;
    ClaimWork(s, step, id, w);
    ClaimTakes(s, step, id);
  }

  lemma EntryKnown(s: System, e: nat, id: string)
    requires IsEntry(s.redis, e, id)
    ensures JobsOf(s.redis, id) != {}
  {
    assert s.redis.stream[e].job in JobsOf(s.redis, id);
  }

  lemma BalancedAppend(s: System, step: Step, id: string, w: Work)
    requires Inv(s) && Enabled(s, step) && Touches(s, step, id)
    requires step.Produce? || step.Promoting?
    requires Balanced(s, id, w)
    ensures Inv(Next(s, step))
    ensures Balanced(Next(s, step), id, WorkNext(s, step, id, w))
  {
    StepKeeps(s, step);
    var v := View(s, id);
    if step.Produce? {
      KnownJob(s.redis, id);
      assert Good(v);
      AppendedEntry(s, step.entry.job);
      assert Next(s, step) == s.(redis := Appended(s.redis, step.entry));
    } else {
      var mid := Removed(s, step.job);
      DelayedJob(s, step.job);
      RemovedView(s, step.job, id);
      AppendedEntry(mid, step.job);
      assert Next(s, step) == mid.(redis := Appended(mid.redis, Valid(step.job)));
    }
  }

  lemma CrashView(s: System, c: Claim)
    requires Shape(s.redis)
    ensures var v := View(s, c.job.jobId);
            View(s.(claims := s.claims - {c}), c.job.jobId) == v.(claims := v.claims - {c})
  {
    assert ClaimsOf(s.(claims := s.claims - {c}), c.job.jobId) == ClaimsOf(s, c.job.jobId) - {c};
  }

  lemma FinaliseRetry(r: Redis, c: Claim, verdict: Verdict, now: real, due: real)
    ensures var r' := Finalise(r, c, verdict, now, due);
            && r'.retry == (if Schedules(System(r, {}), Finalising(c, verdict, now, due), c.job.jobId) then r.retry[c.job := due] else r.retry)
            && r'.stream == r.stream && r'.cursor == r.cursor
  {
  }

  lemma FinaliseView(s: System, c: Claim, verdict: Verdict, now: real, due: real)
    requires Inv(s) && c in s.claims
    ensures var step := Finalising(c, verdict, now, due);
            var v, v' := View(s, c.job.jobId), View(Next(s, step), c.job.jobId);
            && v'.claims == v.claims - {c} && v'.entries == v.entries && v'.delivered == v.delivered
            && Attempts(v'.hash) == Attempts(v.hash) && v'.jobs == v.jobs
            && v'.delayed == (if Schedules(s, step, c.job.jobId) then {c.job} else v.delayed)
            && (Schedules(s, step, c.job.jobId) ==> v.delayed == {})
  {
    var id := c.job.jobId;
    var s' := Next(s, Finalising(c, verdict, now, due));
    FinaliseRetry(s.redis, c, verdict, now, due);
    FinaliseAttempts(s.redis, c, verdict, now, due, id);
    assert JobsOf(s'.redis, id) == JobsOf(s.redis, id);
    assert ClaimsOf(s', id) == ClaimsOf(s, id) - {c};
    if Schedules(s, Finalising(c, verdict, now, due), id) {
      CurrentClaim(s, c);
      assert Delayed(s.redis, id) == {};
      forall j | j in Delayed(s'.redis, id) ensures j == c.job {
        assert j != c.job ==> j in Delayed(s.redis, id);
      }
      assert c.job in Delayed(s'.redis, id);
    } else {
      assert Delayed(s'.redis, id) == Delayed(s.redis, id);
    }
  }

  lemma BalancedRelease(s: System, step: Step, id: string, w: Work)
    requires Inv(s) && Enabled(s, step) && Touches(s, step, id)
    requires step.Finalising? || step.Crash?
    requires Balanced(s, id, w)
    ensures Inv(Next(s, step))
    ensures Balanced(Next(s, step), id, WorkNext(s, step, id, w))
  {
    StepKeeps(s, step);
    var v := View(s, id);
    assert Good(v);
    var c := if step.Crash? then step.lost else step.claim;
    assert c in v.claims;
    assert |v.claims - {c}| == |v.claims| - 1;
    if step.Crash? {
      CrashView(s, c);
    } else {
      FinaliseView(s, c, step.verdict, step.now, step.due);
    }
  }

  lemma UntouchedBalance(s: System, step: Step, id: string, w: Work)
    requires Inv(s) && Enabled(s, step) && Balanced(s, id, w) && !Touches(s, step, id)
    ensures Inv(Next(s, step)) && Balanced(Next(s, step), id, WorkNext(s, step, id, w))
  {
    assert WorkNext(s, step, id, w) == w;
    hide Inv, Next, View;
    if step.Claiming? || step.Reclaiming? {
      UntouchedDelivery(s, step, id);
    } else if step.Delivering? || step.Passing? {
      UntouchedHanding(s, step, id);
    } else {
      UntouchedEntry(s, step, id);
    }
  }

  lemma StepBalance(s: System, step: Step, id: string, w: Work)
    requires Inv(s) && Enabled(s, step) && Balanced(s, id, w)
    ensures Inv(Next(s, step)) && Balanced(Next(s, step), id, WorkNext(s, step, id, w))
  {
    StepKeeps(s, step);
    hide Next, Balanced, WorkNext, Good, View;
    if !Touches(s, step, id) {
      UntouchedBalance(s, step, id, w);
    } else if step.Claiming? || step.Reclaiming? {
      BalancedClaim(s, step, id, w);
    } else if step.Delivering? || step.Passing? {
      BalancedHanding(s, step, id, w);
    } else if step.Produce? || step.Promoting? {
      BalancedAppend(s, step, id, w);
    } else {
      BalancedRelease(s, step, id, w);
    }
  }

  lemma {:induction false} RunBalance(steps: seq<Step>, id: string)
    requires Feasible(INITIAL, steps)
    ensures Inv(After(INITIAL, steps))
    ensures Balanced(After(INITIAL, steps), id, WorkOn(INITIAL, steps, id))
  {
    InitialInv();
    if |steps| == 0 {
      assert View(INITIAL, id).claims == {};
    } else {
      var front, last := steps[..|steps| - 1], steps[|steps| - 1];
      hide Inv, Balanced, Next, Enabled;
      RunBalance(front, id);
      StepBalance(After(INITIAL, front), last, id, WorkOn(INITIAL, front, id));
    }
  }

  /** In every run, every step on a job is accounted for by its entries, its attempts and the
      claims still held; its attempts, together with the times it was handed to a worker that did
      not claim it, are its deliveries plus its lease losses. */
  lemma Accounting(steps: seq<Step>, id: string)
    requires Feasible(INITIAL, steps)
    ensures var s, w := After(INITIAL, steps), WorkOn(INITIAL, steps, id);
            var attempts := Attempts(Lookup(s.redis.state, id));
            && w.steps + |ClaimsOf(s, id)| == Count(s.redis.stream, id) + 2 * attempts + w.dropped
            && s.redis.cursor <= |s.redis.stream|
            && attempts + w.dropped == Count(s.redis.stream[..s.redis.cursor], id) + w.reclaims
  {
    RunBalance(steps, id);
  }

  /** A job is retried at most `max_attempts - 1` times, attempted at most `max_attempts` times
      plus once per lease loss, and after finitely many lease losses nothing is left to do on it. */
  lemma WorkIsBounded(steps: seq<Step>, id: string, j: Job)
    requires Feasible(INITIAL, steps)
    requires j in JobsOf(After(INITIAL, steps).redis, id)
    ensures var s, w := After(INITIAL, steps), WorkOn(INITIAL, steps, id);
            && w.retries <= j.maxAttempts - 1
            && Count(s.redis.stream, id) <= j.maxAttempts
            && Attempts(Lookup(s.redis.state, id)) <= j.maxAttempts + w.reclaims
            && w.steps <= 3 * j.maxAttempts + 2 * w.reclaims
  {
    RunBalance(steps, id);
    var s := After(INITIAL, steps);
    assert Good(View(s, id));
    assert j in View(s, id).jobs;
  }

  // ---------------------------------------------------------------------------
  // No job gets stuck
  // ---------------------------------------------------------------------------

  lemma FinishPending(s: System, id: string, e: nat, worker: string) returns (steps: seq<Step>)
    requires Inv(s) && e in Pending(s.redis, id)
    ensures Feasible(s, steps) && Settled(Lookup(After(s, steps).redis.state, id))
  {
    var take := Reclaiming(e, worker);
    var c := NewClaim(s.redis, e, s.redis.stream[e].job, worker);
    var s1 := Next(s, take);
    var done := Finalising(c, Returned(None), 0.0, 0.0);
    Single(s, take);
    Single(s1, done);
    Continue(s, [take], [done]);
    steps := [take] + [done];
  }

  lemma {:induction false} FinishQueued(s: System, id: string, e: nat, worker: string) returns (steps: seq<Step>)
    requires Inv(s) && e in Queued(s.redis, id)
    ensures Feasible(s, steps) && Settled(Lookup(After(s, steps).redis.state, id))
    decreases e - s.redis.cursor
  {
    var take := Claiming(worker);
    var s1 := Next(s, take);
    StepKeeps(s, take);
    Single(s, take);
    var rest: seq<Step>;
    if e == s.redis.cursor {
      assert e in Pending(s1.redis, id);
      rest := FinishPending(s1, id, e, worker);
    } else {
      assert e in Queued(s1.redis, id);
      rest := FinishQueued(s1, id, e, worker);
    }
    Continue(s, [take], rest);
    steps := [take] + rest;
  }

  /** From every reachable state every produced job can still be brought to a terminal outcome. */
  lemma EveryJobCanFinish(s: System, id: string, worker: string) returns (steps: seq<Step>)
    requires Reachable(s) && Known(s.redis, id)
    ensures Feasible(s, steps) && IsTerminal(After(s, steps).redis, id)
  {
    ReachableInv(s);
    var j := KnownLives(s, id);
    var v := View(s, id);
    if v.pending != {} {
      var e :| e in v.pending;
      steps := FinishPending(s, id, e, worker);
    } else if v.queued != {} {
      var e :| e in v.queued;
      steps := FinishQueued(s, id, e, worker);
    } else if v.delayed != {} {
      assert j in v.delayed;
      var promote := Promoting(j);
      var s1 := Next(s, promote);
      StepKeeps(s, promote);
      Single(s, promote);
      assert |s.redis.stream| in Queued(s1.redis, id);
      var rest := FinishQueued(s1, id, |s.redis.stream|, worker);
      Continue(s, [promote], rest);
      steps := [promote] + rest;
    } else {
      steps := [];
    }
  }

  // ---------------------------------------------------------------------------
  // Why a claim may be finalised only once
  // ---------------------------------------------------------------------------

  /** The scripts compare the attempt and not the status: committing a current claim a second
      time is not refused, and announces the result twice. */
  lemma SecondCommitAnnouncesAgain(r: Redis, c: Claim, result: HandlerResult)
    ensures var once := CommitResultIfCurrent(r, c, result);
            var twice := CommitResultIfCurrent(once, c, result);
            if IsCurrent(r, c)
            then |EventsOf(twice.events, c.job.jobId)| == |EventsOf(once.events, c.job.jobId)| + 1
            else twice == once == r
  {
    var once := CommitResultIfCurrent(r, c, result);
    EventsAppend(once.events, EventOf(c, result), c.job.jobId);
  }
}
