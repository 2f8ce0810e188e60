/**
 Any number of submitters in front of the job protocol, as the steps they interleave with each
 other and with the workers. An entry appended by a submitter is a Produce step of Protocol, so
 this is where that step's conditions come from: a job id is produced once, and a malformed entry
 does not carry the id of a well-formed job.

 No marker expires, and an enqueue that fails has appended nothing.
 */
module Admission {
  import opened Wrappers
  import opened Jobs
  import opened Idempotency
  import opened Protocol
  import opened ProtocolInvariant
  import opened ProtocolTheorems
  import opened Submission
  import Worker

  /** Where a submitter is: between calls, past the backpressure check, or holding the marker. */
  datatype Phase = Idle | Admitted(candidate: Candidate) | Holding(candidate: Candidate)

  /** The protocol's system, the ids appended by submitters so far, the markers, the submitters, and
      how many retries have been promoted. */
  datatype Front = Front(sys: System, appended: seq<string>, markers: set<string>, phases: seq<Phase>, promotions: nat)

  datatype Move =
    | Check(who: nat, candidate: Candidate)
    | Mark(who: nat)
    | Append(who: nat)
    | AppendFails(who: nat)
    | Act(step: Step)

  /** Job ids do not collide and are not empty. */
  ghost predicate IsHash(hash: Payload -> string) {
    Injective(hash) && forall p :: hash(p) != ""
  }

  /** What the workers make of a candidate's entry. */
  function Arrival(hash: Payload -> string, c: Candidate): Entry {
    Worker.Decode(Worker.RawEntry("", Print(JobFor(c, DeriveJobId(hash, c)))))
  }

  /** Lag plus pending: what count_outstanding reports. */
  function Outstanding(r: Redis): int {
    |r.stream| - r.cursor + |r.pel|
  }

  predicate CanMove(f: Front, move: Move, limit: int) {
    match move
    case Check(i, c) => i < |f.phases| && f.phases[i].Idle? && Validates(c) && Outstanding(f.sys.redis) < limit
    case Mark(i) => i < |f.phases| && f.phases[i].Admitted?
    case Append(i) => i < |f.phases| && f.phases[i].Holding?
    case AppendFails(i) => i < |f.phases| && f.phases[i].Holding?
    case Act(step) => Enabled(f.sys, step) && !step.Produce?
  }

  predicate Promotes(s: System, step: Step) {
    step.Promoting? && step.job in s.redis.retry
  }

  function Moved(hash: Payload -> string, f: Front, move: Move, limit: int): Front
    requires CanMove(f, move, limit)
  {
    match move
    case Check(i, c) => f.(phases := f.phases[i := Admitted(c)])
    case Mark(i) =>
      var c := f.phases[i].candidate;
      var id := DeriveJobId(hash, c);
      if id in f.markers then f.(phases := f.phases[i := Idle])
      else f.(markers := f.markers + {id}, phases := f.phases[i := Holding(c)])
    case Append(i) =>
      var c := f.phases[i].candidate;
      f.(sys := f.sys.(redis := Appended(f.sys.redis, Arrival(hash, c))),
         appended := f.appended + [DeriveJobId(hash, c)],
         phases := f.phases[i := Idle])
    case AppendFails(i) =>
      f.(markers := f.markers - {DeriveJobId(hash, f.phases[i].candidate)}, phases := f.phases[i := Idle])
    case Act(step) =>
      f.(sys := Next(f.sys, step), promotions := f.promotions + if Promotes(f.sys, step) then 1 else 0)
  }

  ghost predicate Possible(hash: Payload -> string, f: Front, moves: seq<Move>, limit: int)
    decreases |moves|, 0
  {
    |moves| == 0 ||
    (Possible(hash, f, moves[..|moves| - 1], limit)
     && CanMove(AfterMoves(hash, f, moves[..|moves| - 1], limit), moves[|moves| - 1], limit))
  }

  ghost function AfterMoves(hash: Payload -> string, f: Front, moves: seq<Move>, limit: int): Front
    requires Possible(hash, f, moves, limit)
    decreases |moves|, 1
  {
    if |moves| == 0 then f
    else Moved(hash, AfterMoves(hash, f, moves[..|moves| - 1], limit), moves[|moves| - 1], limit)
  }

  function Opening(submitters: nat): Front {
    Front(INITIAL, [], {}, seq(submitters, i => Idle), 0)
  }

  // ---------------------------------------------------------------------------
  // Appended once
  // ---------------------------------------------------------------------------

  /** The workers read a candidate's entry as a job of its id, or as a malformed entry under that id. */
  lemma ArrivalIsUnderId(hash: Payload -> string, c: Candidate)
    requires IsHash(hash) && Validates(c)
    ensures var id := DeriveJobId(hash, c);
            match Arrival(hash, c)
            case Valid(job) => job.jobId == id && job.maxAttempts >= 1
            case Malformed(key) => key == id
    ensures forall rid: string :: Worker.Decode(Worker.RawEntry(rid, Print(JobFor(c, DeriveJobId(hash, c))))) == Arrival(hash, c)
  {
    var id := DeriveJobId(hash, c);
    var fields := Print(JobFor(c, id));
    assert JobId in fields && fields[JobId] == id && id != "";
    if Parse(fields).Ok? {
      ParsedIsWellFormed(fields);
    }
  }

  predicate Seen(r: Redis, id: string) {
    Known(r, id) || Junk(r, id)
  }

  /** Whatever is on the stream was appended by a submitter, once, and is marked. */
  ghost predicate Recorded(f: Front) {
    && (forall id: string :: Seen(f.sys.redis, id) ==> id in f.appended)
    && (forall i, j :: 0 <= i < j < |f.appended| ==> f.appended[i] != f.appended[j])
    && (forall id :: id in f.appended ==> id in f.markers)
  }

  /** A marker that is not of an id appended is held by one submitter. */
  ghost predicate Exclusive(hash: Payload -> string, f: Front) {
    && (forall i :: 0 <= i < |f.phases| && !f.phases[i].Idle? ==> Validates(f.phases[i].candidate))
    && (forall i :: 0 <= i < |f.phases| && f.phases[i].Holding? ==>
          var id := DeriveJobId(hash, f.phases[i].candidate); id in f.markers && id !in f.appended)
    && (forall i, j :: 0 <= i < j < |f.phases| && f.phases[i].Holding? && f.phases[j].Holding? ==>
          DeriveJobId(hash, f.phases[i].candidate) != DeriveJobId(hash, f.phases[j].candidate))
  }

  ghost predicate Consistent(hash: Payload -> string, f: Front) {
    Recorded(f) && Exclusive(hash, f)
  }

  /** Every append is a Produce step that Protocol allows. */
  lemma AppendIsProduce(hash: Payload -> string, f: Front, i: nat, limit: int)
    requires IsHash(hash) && Consistent(hash, f) && CanMove(f, Append(i), limit)
    ensures var produce := Produce(Arrival(hash, f.phases[i].candidate));
            Enabled(f.sys, produce) && Moved(hash, f, Append(i), limit).sys == Next(f.sys, produce)
  {
    var c := f.phases[i].candidate;
    ArrivalIsUnderId(hash, c);
    assert !Seen(f.sys.redis, DeriveJobId(hash, c));
  }

  lemma SeenAppended(r: Redis, entry: Entry, id: string)
    ensures Seen(Appended(r, entry), id) <==> Seen(r, id) || EntryOf(entry, id) || entry == Malformed(id)
  {
    var r' := Appended(r, entry);
    assert r'.stream[|r.stream|] == entry;
    forall e: nat | e < |r.stream| ensures r'.stream[e] == r.stream[e] && IsEntry(r', e, id) == IsEntry(r, e, id) {}
    assert EntryOf(entry, id) ==> IsEntry(r', |r.stream|, id);
  }

  /** The workers put no id on the stream that was not there. */
  lemma WorkSeesNothingNew(s: System, step: Step, id: string)
    requires Inv(s) && Enabled(s, step) && !step.Produce?
    ensures Seen(Next(s, step).redis, id) ==> Seen(s.redis, id)
  {
    var r' := Next(s, step).redis;
    if Promotes(s, step) {
      var job := step.job;
      DelayedJob(s, job);
      KnownJob(s.redis, job.jobId);
      assert r' == Appended(s.redis.(retry := s.redis.retry - {job}), Valid(job));
      SeenAppended(s.redis.(retry := s.redis.retry - {job}), Valid(job), id);
      SeenOnStream(s.redis.(retry := s.redis.retry - {job}), s.redis, id);
    } else {
      if step.Finalising? && IsCurrent(s.redis, step.claim) {
        FinaliseCurrent(s.redis, step.claim, step.verdict, step.now, step.due);
      }
      assert r'.stream == s.redis.stream;
      SeenOnStream(r', s.redis, id);
    }
  }

  lemma SeenOnStream(a: Redis, b: Redis, id: string)
    requires a.stream == b.stream
    ensures Seen(a, id) <==> Seen(b, id)
  {
    forall e: nat ensures IsEntry(a, e, id) == IsEntry(b, e, id) {}
  }

  lemma WorkKeeps(hash: Payload -> string, f: Front, step: Step, limit: int)
    requires Consistent(hash, f) && Inv(f.sys) && CanMove(f, Act(step), limit)
    ensures Consistent(hash, Moved(hash, f, Act(step), limit))
  {
    forall id: string | Seen(Next(f.sys, step).redis, id) ensures id in f.appended {
      WorkSeesNothingNew(f.sys, step, id);
    }
  }

  lemma AppendRecords(hash: Payload -> string, f: Front, i: nat, limit: int)
    requires IsHash(hash) && Consistent(hash, f) && CanMove(f, Append(i), limit)
    ensures Recorded(Moved(hash, f, Append(i), limit))
  {
    var c, f' := f.phases[i].candidate, Moved(hash, f, Append(i), limit);
    ArrivalIsUnderId(hash, c);
    hide Arrival, DeriveJobId, Validates, IsHash, Appended;
    forall id: string | Seen(f'.sys.redis, id) ensures id in f'.appended {
      SeenAppended(f.sys.redis, Arrival(hash, c), id);
    }
    hide Seen;
  }

  lemma AppendReleases(hash: Payload -> string, f: Front, i: nat, limit: int)
    requires Exclusive(hash, f) && CanMove(f, Append(i), limit)
    ensures Exclusive(hash, Moved(hash, f, Append(i), limit))
  {
    hide Arrival, DeriveJobId, Validates, Appended;
  }

  lemma OtherKeeps(hash: Payload -> string, f: Front, move: Move, limit: int)
    requires Consistent(hash, f) && CanMove(f, move, limit) && !move.Append? && !move.Act?
    ensures Consistent(hash, Moved(hash, f, move, limit))
  {
    hide DeriveJobId, Seen, Validates;
  }

  lemma MoveKeeps(hash: Payload -> string, f: Front, move: Move, limit: int)
    requires IsHash(hash) && Consistent(hash, f) && Inv(f.sys) && CanMove(f, move, limit)
    ensures Consistent(hash, Moved(hash, f, move, limit)) && |Moved(hash, f, move, limit).phases| == |f.phases|
  {
    hide Recorded, Exclusive, Next;
    match move
    case Append(i) =>
      AppendRecords(hash, f, i, limit);
      AppendReleases(hash, f, i, limit);
    case Act(step) => WorkKeeps(hash, f, step, limit);
    case _ => OtherKeeps(hash, f, move, limit);
  }

  // ---------------------------------------------------------------------------
  // Outstanding work
  // ---------------------------------------------------------------------------

  /** How many submitters are in a call. */
  function Busy(phases: seq<Phase>): nat {
    if |phases| == 0 then 0 else Busy(phases[..|phases| - 1]) + (if phases[|phases| - 1].Idle? then 0 else 1)
  }

  lemma {:induction false} BusyUpdate(phases: seq<Phase>, i: nat, p: Phase)
    requires i < |phases|
    ensures Busy(phases[i := p]) == Busy(phases) - (if phases[i].Idle? then 0 else 1) + (if p.Idle? then 0 else 1)
  {
    var n := |phases| - 1;
    if i < n {
      BusyUpdate(phases[..n], i, p);
      assert phases[i := p][..n] == phases[..n][i := p];
    } else {
      assert phases[i := p][..n] == phases[..n];
    }
  }

  lemma {:induction false} BusyAtMost(phases: seq<Phase>)
    ensures Busy(phases) <= |phases|
    ensures (exists i :: 0 <= i < |phases| && phases[i].Idle?) ==> Busy(phases) < |phases|
  {
    if |phases| > 0 {
      var front := phases[..|phases| - 1];
      BusyAtMost(front);
      if i :| 0 <= i < |phases| && phases[i].Idle? {
        assert i < |front| ==> front[i].Idle?;
      }
    }
  }

  lemma Smaller(m: map<nat, string>, e: nat)
    ensures |m - {e}| <= |m|
  {
    assert (m - {e}).Keys == m.Keys - {e};
    assert |m.Keys| == |m| && |(m - {e}).Keys| == |m - {e}|;
  }

  lemma FinaliseAdds(r: Redis, c: Claim, verdict: Verdict, now: real, due: real)
    ensures Outstanding(Finalise(r, c, verdict, now, due)) <= Outstanding(r)
  {
    if IsCurrent(r, c) {
      FinaliseCurrent(r, c, verdict, now, due);
      FinaliseRetry(r, c, verdict, now, due);
      Smaller(r.pel, c.entry);
    }
  }

  /** Of the workers' steps only a promotion adds outstanding work. */
  lemma WorkAdds(s: System, step: Step)
    requires Enabled(s, step) && !step.Produce?
    ensures Outstanding(Next(s, step).redis) <= Outstanding(s.redis) + if Promotes(s, step) then 1 else 0
  {
    match step
    case Finalising(c, verdict, now, due) => FinaliseAdds(s.redis, c, verdict, now, due);
    case Claiming(w) => Smaller(s.redis.pel, s.redis.cursor);
    case Reclaiming(e, w) => Smaller(s.redis.pel, e);
    case _ =>
  }

  /** Each promotion may raise the outstanding work above what was admitted. */
  ghost predicate Bounded(f: Front, limit: int) {
    Outstanding(f.sys.redis) + Busy(f.phases) <= limit + |f.phases| - 1 + f.promotions
  }

  lemma MoveBounded(hash: Payload -> string, f: Front, move: Move, limit: int)
    requires CanMove(f, move, limit) && Bounded(f, limit)
    ensures Bounded(Moved(hash, f, move, limit), limit)
  {
    var f' := Moved(hash, f, move, limit);
    match move
    case Act(step) => WorkAdds(f.sys, step);
    case _ =>
      BusyUpdate(f.phases, move.who, f'.phases[move.who]);
      BusyAtMost(f.phases);
  }

  lemma {:induction false} AllIdle(n: nat)
    ensures Busy(seq(n, i => Idle)) == 0
  {
    if n > 0 {
      AllIdle(n - 1);
      assert seq(n, i => Idle)[..n - 1] == seq(n - 1, i => Idle);
    }
  }

  lemma MoveReaches(hash: Payload -> string, f: Front, move: Move, limit: int)
    requires IsHash(hash) && Consistent(hash, f) && Reachable(f.sys) && CanMove(f, move, limit)
    ensures Reachable(Moved(hash, f, move, limit).sys)
  {
    match move
    case Append(i) =>
      AppendIsProduce(hash, f, i, limit);
      Worker.StepReachable(f.sys, Produce(Arrival(hash, f.phases[i].candidate)));
    case Act(step) => Worker.StepReachable(f.sys, step);
    case _ =>
  }

  lemma {:induction false} RunsKeep(hash: Payload -> string, submitters: nat, moves: seq<Move>, limit: int)
    requires IsHash(hash) && submitters >= 1 && limit >= 0
    requires Possible(hash, Opening(submitters), moves, limit)
    ensures var f := AfterMoves(hash, Opening(submitters), moves, limit);
            Consistent(hash, f) && Reachable(f.sys) && Bounded(f, limit) && |f.phases| == submitters
  {
    hide Consistent, Reachable, Bounded, Moved, CanMove;
    if |moves| == 0 {
      OpeningHolds(hash, submitters, limit);
    } else {
      var front, last := moves[..|moves| - 1], moves[|moves| - 1];
      RunsKeep(hash, submitters, front, limit);
      var f := AfterMoves(hash, Opening(submitters), front, limit);
      ReachableInv(f.sys);
      MoveKeeps(hash, f, last, limit);
      MoveReaches(hash, f, last, limit);
      MoveBounded(hash, f, last, limit);
    }
  }

  lemma OpeningHolds(hash: Payload -> string, submitters: nat, limit: int)
    requires submitters >= 1 && limit >= 0
    ensures var f := Opening(submitters); Consistent(hash, f) && Reachable(f.sys) && Bounded(f, limit)
  {
    AllIdle(submitters);
    Worker.StartReachable();
  }

  /**
   Whatever the interleaving of whatever submissions and whatever work: a job id is appended at most
   once, the system is a reachable one of Protocol, and the outstanding work passes the limit by no
   more than the other submitters in flight and the retries promoted.
   */
  lemma AppendedOnceAndBounded(hash: Payload -> string, submitters: nat, moves: seq<Move>, limit: int)
    requires IsHash(hash) && submitters >= 1 && limit >= 0
    requires Possible(hash, Opening(submitters), moves, limit)
    ensures var f := AfterMoves(hash, Opening(submitters), moves, limit);
            && (forall i, j :: 0 <= i < j < |f.appended| ==> f.appended[i] != f.appended[j])
            && Reachable(f.sys)
            && Outstanding(f.sys.redis) <= limit + submitters - 1 + f.promotions
  {
    RunsKeep(hash, submitters, moves, limit);
  }

  // ---------------------------------------------------------------------------
  // Duplicates
  // ---------------------------------------------------------------------------

  /** Some submitter holds the marker of the id. */
  predicate Held(hash: Payload -> string, f: Front, id: string) {
    exists i :: 0 <= i < |f.phases| && f.phases[i].Holding? && DeriveJobId(hash, f.phases[i].candidate) == id
  }

  /** Every marker is of a job that was appended or is about to be. */
  ghost predicate Backed(hash: Payload -> string, f: Front) {
    forall id :: id in f.markers ==> id in f.appended || Held(hash, f, id)
  }

  lemma MoveBacked(hash: Payload -> string, f: Front, move: Move, limit: int)
    requires CanMove(f, move, limit) && Backed(hash, f)
    ensures Backed(hash, Moved(hash, f, move, limit))
  {
    var f' := Moved(hash, f, move, limit);
    hide DeriveJobId, Next, Arrival, Validates;
    forall id | id in f'.markers ensures id in f'.appended || Held(hash, f', id) {
      if id in f.markers && id !in f.appended {
        var j :| 0 <= j < |f.phases| && f.phases[j].Holding? && DeriveJobId(hash, f.phases[j].candidate) == id;
        assert f'.phases[j] == f.phases[j] || (move.Append? && move.who == j);
      } else if id !in f.markers {
        assert f'.phases[move.who].Holding? && DeriveJobId(hash, f'.phases[move.who].candidate) == id;
      }
    }
  }

  lemma {:induction false} RunsBacked(hash: Payload -> string, submitters: nat, moves: seq<Move>, limit: int)
    requires Possible(hash, Opening(submitters), moves, limit)
    ensures Backed(hash, AfterMoves(hash, Opening(submitters), moves, limit))
  {
    hide Moved, CanMove;
    if |moves| > 0 {
      var front, last := moves[..|moves| - 1], moves[|moves| - 1];
      RunsBacked(hash, submitters, front, limit);
      MoveBacked(hash, AfterMoves(hash, Opening(submitters), front, limit), last, limit);
    }
  }

  /** In every run a candidate past the backpressure check is turned away exactly when its job has been
      appended or another submitter is about to append it. */
  lemma SuppressedExactly(hash: Payload -> string, submitters: nat, moves: seq<Move>, limit: int, i: nat)
    requires IsHash(hash) && submitters >= 1 && limit >= 0
    requires Possible(hash, Opening(submitters), moves, limit)
    requires var f := AfterMoves(hash, Opening(submitters), moves, limit); i < |f.phases| && f.phases[i].Admitted?
    ensures var f := AfterMoves(hash, Opening(submitters), moves, limit);
            var c := f.phases[i].candidate;
            var id := DeriveJobId(hash, c);
            Moved(hash, f, Mark(i), limit).phases[i] == if id in f.appended || Held(hash, f, id) then Idle else Holding(c)
  {
    RunsKeep(hash, submitters, moves, limit);
    RunsBacked(hash, submitters, moves, limit);
    hide DeriveJobId, Reachable, Bounded, Validates, IsHash, Possible, AfterMoves;
  }

  /** And an enqueue that fails is forgotten: its candidate will not be turned away for it. */
  lemma FailureIsForgotten(hash: Payload -> string, submitters: nat, moves: seq<Move>, limit: int, i: nat)
    requires IsHash(hash) && submitters >= 1 && limit >= 0
    requires Possible(hash, Opening(submitters), moves, limit)
    requires CanMove(AfterMoves(hash, Opening(submitters), moves, limit), AppendFails(i), limit)
    ensures var f := AfterMoves(hash, Opening(submitters), moves, limit);
            var f', id := Moved(hash, f, AppendFails(i), limit), DeriveJobId(hash, f.phases[i].candidate);
            id !in f'.markers && id !in f'.appended && !Held(hash, f', id) && f'.sys == f.sys
  {
    RunsKeep(hash, submitters, moves, limit);
    ReachableInv(AfterMoves(hash, Opening(submitters), moves, limit).sys);
    hide DeriveJobId, Reachable, Bounded, Validates, IsHash, Possible, AfterMoves, Recorded, Inv;
    MoveKeeps(hash, AfterMoves(hash, Opening(submitters), moves, limit), AppendFails(i), limit);
  }

  /** What count_outstanding makes of the group's record is the outstanding work. */
  lemma OutstandingIsReported(r: Redis, groups: seq<GroupInfo>, k: nat)
    requires Shape(r) && k < |groups| && groups[k] == GroupInfo(CONSUMER_GROUP, Some(|r.stream| - r.cursor), |r.pel|)
    requires forall i :: 0 <= i < k ==> groups[i].name != CONSUMER_GROUP
    ensures CountOutstanding(groups) == Some(Outstanding(r))
  {
    hide CountOutstanding, CONSUMER_GROUP;
    OutstandingOfGroup(groups, k);
  }

  /** The entries that are undelivered or pending. */
  function Waiting(r: Redis): set<nat> {
    set e: nat | e < |r.stream| && (r.cursor <= e || e in r.pel)
  }

  /** It is the number of those entries. */
  lemma OutstandingCounts(r: Redis)
    requires Shape(r)
    ensures Outstanding(r) == |Waiting(r)|
  {
    var undelivered, pending := Between(r.cursor, |r.stream|), r.pel.Keys;
    assert |pending| == |r.pel|;
    forall e: nat ensures e in Waiting(r) <==> e in undelivered || e in pending {}
    hide Waiting, Shape;
    assert undelivered !! pending && Waiting(r) == undelivered + pending;
  }

  function Between(a: nat, b: nat): (s: set<nat>)
    ensures forall e :: e in s <==> a <= e < b
    ensures a <= b ==> |s| == b - a
  {
    if a >= b then {} else Between(a, b - 1) + {b - 1}
  }

  // ---------------------------------------------------------------------------
  // The bound is attained
  // ---------------------------------------------------------------------------

  /** The run leads to f. */
  ghost predicate LeadsTo(hash: Payload -> string, submitters: nat, limit: int, moves: seq<Move>, f: Front) {
    Possible(hash, Opening(submitters), moves, limit) && AfterMoves(hash, Opening(submitters), moves, limit) == f
  }

  lemma MoveOn(hash: Payload -> string, submitters: nat, limit: int, moves: seq<Move>, f: Front, move: Move)
    requires LeadsTo(hash, submitters, limit, moves, f) && CanMove(f, move, limit)
    ensures LeadsTo(hash, submitters, limit, moves + [move], Moved(hash, f, move, limit))
  {
    assert (moves + [move])[..|moves|] == moves;
  }

  /** The k-th of a series of candidates that differ in their url; each may be attempted twice. */
  function Cand(k: nat): Candidate {
    Candidate("http://" + seq(k, i => 'a'), "m", "video", "d", "t", "v", ["x"], Normal, 2)
  }

  function Name(hash: Payload -> string, k: nat): string {
    DeriveJobId(hash, Cand(k))
  }

  function Task(hash: Payload -> string, k: nat): Job {
    JobFor(Cand(k), Name(hash, k))
  }

  lemma CandIsFine(hash: Payload -> string, k: nat)
    requires IsHash(hash)
    ensures Validates(Cand(k)) && Arrival(hash, Cand(k)) == Valid(Task(hash, k))
    ensures Task(hash, k).jobId == Name(hash, k) && Task(hash, k).maxAttempts == 2
  {
    var url := Cand(k).candidateUrl;
    assert Lower(url)[..7] == "http://";
    RoundTrip(Task(hash, k));
    assert Name(hash, k) != "";
  }

  lemma NamesDiffer(hash: Payload -> string, k: nat, l: nat)
    requires IsHash(hash) && k != l
    ensures Name(hash, k) != Name(hash, l)
  {
    assert |Cand(k).candidateUrl| == 7 + k && |Cand(l).candidateUrl| == 7 + l;
    assert Canonical(Cand(k).candidateUrl, "t", "v", ["x"]) != Canonical(Cand(l).candidateUrl, "t", "v", ["x"]);
  }

  /** No trace of the candidates from the k-th on. */
  ghost predicate Fresh(hash: Payload -> string, f: Front, k: nat) {
    forall j: nat :: j >= k ==> Name(hash, j) !in f.markers && Name(hash, j) !in f.sys.redis.state && Task(hash, j) !in f.sys.redis.retry
  }

  /** No submitter is in a call. */
  predicate Quiet(f: Front) {
    forall i :: 0 <= i < |f.phases| ==> f.phases[i].Idle?
  }

  /** Submitter i, past the check with the k-th candidate, marks it. */
  lemma MarkOne(hash: Payload -> string, n: nat, limit: int, moves: seq<Move>, f: Front, i: nat, k: nat)
    requires LeadsTo(hash, n, limit, moves, f)
    requires i < |f.phases| && f.phases[i] == Admitted(Cand(k)) && Name(hash, k) !in f.markers
    ensures LeadsTo(hash, n, limit, moves + [Mark(i)],
                    f.(markers := f.markers + {Name(hash, k)}, phases := f.phases[i := Holding(Cand(k))]))
  {
    assert Name(hash, k) == DeriveJobId(hash, Cand(k));
    hide LeadsTo, Cand, Name, DeriveJobId, Next, Enabled, Arrival;
    MoveOn(hash, n, limit, moves, f, Mark(i));
  }

  /** The front after submitter i, who holds the marker of the k-th candidate, has appended it. */
  function WithEntry(hash: Payload -> string, f: Front, i: nat, k: nat): Front
    requires i < |f.phases|
  {
    f.(sys := f.sys.(redis := Appended(f.sys.redis, Valid(Task(hash, k)))), appended := f.appended + [Name(hash, k)],
       markers := f.markers + {Name(hash, k)}, phases := f.phases[i := Idle])
  }

  lemma AppendOne(hash: Payload -> string, n: nat, limit: int, moves: seq<Move>, f: Front, i: nat, k: nat)
    requires IsHash(hash) && LeadsTo(hash, n, limit, moves, f)
    requires i < |f.phases| && f.phases[i] == Holding(Cand(k)) && Name(hash, k) in f.markers
    ensures LeadsTo(hash, n, limit, moves + [Append(i)], WithEntry(hash, f, i, k))
  {
    AppendGives(hash, f, i, k, limit);
    hide *;
    MoveOn(hash, n, limit, moves, f, Append(i));
  }

  lemma AppendGives(hash: Payload -> string, f: Front, i: nat, k: nat, limit: int)
    requires IsHash(hash) && i < |f.phases| && f.phases[i] == Holding(Cand(k)) && Name(hash, k) in f.markers
    ensures CanMove(f, Append(i), limit) && Moved(hash, f, Append(i), limit) == WithEntry(hash, f, i, k)
  {
    CandIsFine(hash, k);
    assert Name(hash, k) == DeriveJobId(hash, Cand(k));
    hide Cand, Name, Task, DeriveJobId, Arrival, IsHash, Appended;
    assert f.markers + {Name(hash, k)} == f.markers;
  }

  lemma MarkAndAppend(hash: Payload -> string, n: nat, limit: int, moves: seq<Move>, f: Front, i: nat, k: nat)
    requires IsHash(hash) && LeadsTo(hash, n, limit, moves, f)
    requires i < |f.phases| && f.phases[i] == Admitted(Cand(k)) && Name(hash, k) !in f.markers
    ensures LeadsTo(hash, n, limit, moves + [Mark(i)] + [Append(i)], WithEntry(hash, f, i, k))
  {
    hide LeadsTo, Cand, Name, Task, IsHash, Appended;
    MarkOne(hash, n, limit, moves, f, i, k);
    var mid := f.(markers := f.markers + {Name(hash, k)}, phases := f.phases[i := Holding(Cand(k))]);
    AppendOne(hash, n, limit, moves + [Mark(i)], mid, i, k);
    assert WithEntry(hash, mid, i, k) == WithEntry(hash, f, i, k);
  }

  /** A whole submission of the k-th candidate by submitter 0. */
  lemma SubmitOne(hash: Payload -> string, n: nat, limit: int, moves: seq<Move>, f: Front, k: nat) returns (moves': seq<Move>, g: Front)
    requires IsHash(hash) && LeadsTo(hash, n, limit, moves, f)
    requires |f.phases| > 0 && Quiet(f) && Outstanding(f.sys.redis) < limit && Name(hash, k) !in f.markers
    ensures LeadsTo(hash, n, limit, moves', g)
    ensures g == WithEntry(hash, f, 0, k) && g.phases == f.phases
  {
    assert f.phases[0].Idle?;
    hide LeadsTo, Cand, Name, Task, IsHash, Appended, Quiet, Outstanding;
    CheckOne(hash, n, limit, moves, f, 0, k);
    var mid := f.(phases := f.phases[0 := Admitted(Cand(k))]);
    MarkAndAppend(hash, n, limit, moves + [Check(0, Cand(k))], mid, 0, k);
    g := WithEntry(hash, mid, 0, k);
    assert g.phases == f.phases;
    moves' := moves + [Check(0, Cand(k))] + [Mark(0)] + [Append(0)];
  }

  lemma CheckOne(hash: Payload -> string, n: nat, limit: int, moves: seq<Move>, f: Front, i: nat, k: nat)
    requires IsHash(hash) && LeadsTo(hash, n, limit, moves, f)
    requires i < |f.phases| && f.phases[i].Idle? && Outstanding(f.sys.redis) < limit
    ensures LeadsTo(hash, n, limit, moves + [Check(i, Cand(k))], f.(phases := f.phases[i := Admitted(Cand(k))]))
  {
    CandIsFine(hash, k);
    hide LeadsTo, Cand, IsHash, Outstanding, Validates, Next, Enabled;
    MoveOn(hash, n, limit, moves, f, Check(i, Cand(k)));
  }

  /** Between the submissions of the run below: nobody in a call, no trace of candidates from the k-th on. */
  ghost predicate Resting(hash: Payload -> string, n: nat, f: Front, k: nat) {
    |f.phases| == n && Quiet(f) && Fresh(hash, f, k)
  }

  /** Everything on the stream has been delivered and acknowledged. */
  predicate Drained(r: Redis) {
    r.cursor == |r.stream| && r.pel == map[]
  }

  /** The k-th candidate is submitted, delivered and fails once: it waits in the retry ZSET. */
  lemma DelayOne(hash: Payload -> string, n: nat, limit: int, moves: seq<Move>, f: Front, k: nat) returns (moves': seq<Move>, g: Front)
    requires IsHash(hash) && n >= 1 && limit >= 1 && LeadsTo(hash, n, limit, moves, f) && Resting(hash, n, f, k)
    requires Drained(f.sys.redis)
    ensures LeadsTo(hash, n, limit, moves', g) && Resting(hash, n, g, k + 1) && Drained(g.sys.redis)
    ensures |g.sys.redis.retry| == |f.sys.redis.retry| + 1 && g.promotions == f.promotions
  {
    assert Name(hash, k) !in f.markers && Name(hash, k) !in f.sys.redis.state && Task(hash, k) !in f.sys.redis.retry;
    var f1: Front, moves1: seq<Move>;
    moves1, f1 := SubmitOne(hash, n, limit, moves, f, k);
    CandIsFine(hash, k);
    hide LeadsTo, Arrival, Validates, Task, Name, Fresh, IsHash;
    moves', g := FailOnce(hash, n, limit, moves1, f1, Claim(|f.sys.redis.stream|, Task(hash, k), 1, "w"));
    FreshAfter(hash, f, g, k);
  }

  /** The only entry outstanding is claimed and fails transiently. */
  lemma FailOnce(hash: Payload -> string, n: nat, limit: int, moves: seq<Move>, f: Front, c: Claim) returns (moves': seq<Move>, g: Front)
    requires LeadsTo(hash, n, limit, moves, f)
    requires var r := f.sys.redis;
             && r.cursor == c.entry && |r.stream| == r.cursor + 1 && r.stream[r.cursor] == Valid(c.job) && r.pel == map[]
             && c.job.jobId !in r.state && c.job !in r.retry
    requires c.attempt == 1 && c.worker == "w" && c.job.maxAttempts == 2
    ensures LeadsTo(hash, n, limit, moves', g)
    ensures g == f.(sys := g.sys) && Drained(g.sys.redis)
    ensures g.sys.redis.retry == f.sys.redis.retry[c.job := 0.0]
    ensures g.sys.redis.state.Keys == f.sys.redis.state.Keys + {c.job.jobId}
  {
    var mid, t := ClaimAndFail(f.sys, c);
    var claim, fail := Act(Claiming("w")), Act(Finalising(c, Transient(""), 0.0, 0.0));
    hide LeadsTo, Next, Enabled;
    MoveOn(hash, n, limit, moves, f, claim);
    MoveOn(hash, n, limit, moves + [claim], f.(sys := mid), fail);
    moves', g := moves + [claim] + [fail], f.(sys := t);
  }

  /** The next entry is taken and its first attempt fails transiently. */
  lemma ClaimAndFail(s: System, c: Claim) returns (mid: System, t: System)
    requires s.redis.cursor < |s.redis.stream| && s.redis.stream[s.redis.cursor] == Valid(c.job)
    requires c.entry == s.redis.cursor && c.attempt == 1 && c.worker == "w" && c.job.maxAttempts == 2
    requires s.redis.cursor + 1 == |s.redis.stream| && s.redis.pel == map[]
    requires c.job.jobId !in s.redis.state && c.job !in s.redis.retry
    ensures Enabled(s, Claiming("w")) && mid == Next(s, Claiming("w"))
    ensures var fail := Finalising(c, Transient(""), 0.0, 0.0); Enabled(mid, fail) && t == Next(mid, fail)
    ensures Drained(t.redis) && t.redis.retry == s.redis.retry[c.job := 0.0] && t.redis.state.Keys == s.redis.state.Keys + {c.job.jobId}
  {
    mid := Next(s, Claiming("w"));
    t := Next(mid, Finalising(c, Transient(""), 0.0, 0.0));
  }

  lemma FreshAfter(hash: Payload -> string, f: Front, g: Front, k: nat)
    requires IsHash(hash) && Fresh(hash, f, k)
    requires g.markers == f.markers + {Name(hash, k)}
    requires g.sys.redis.state.Keys <= f.sys.redis.state.Keys + {Name(hash, k)}
    requires g.sys.redis.retry.Keys <= f.sys.redis.retry.Keys + {Task(hash, k)}
    ensures Fresh(hash, g, k + 1)
  {
    hide Cand, Name, Task, IsHash;
    forall j: nat | j >= k + 1
      ensures Name(hash, j) !in g.markers && Name(hash, j) !in g.sys.redis.state && Task(hash, j) !in g.sys.redis.retry
    {
      NamesDiffer(hash, j, k);
      CandIsFine(hash, j);
      CandIsFine(hash, k);
      assert Name(hash, j) !in f.markers;
    }
  }

  lemma {:induction false} DelayMany(hash: Payload -> string, n: nat, limit: int, k: nat) returns (moves: seq<Move>, f: Front)
    requires IsHash(hash) && n >= 1 && limit >= 1
    ensures LeadsTo(hash, n, limit, moves, f) && Resting(hash, n, f, k) && Drained(f.sys.redis)
    ensures |f.sys.redis.retry| == k && f.promotions == 0
  {
    if k == 0 {
      moves, f := [], Opening(n);
    } else {
      var before: seq<Move>, g: Front;
      before, g := DelayMany(hash, n, limit, k - 1);
      moves, f := DelayOne(hash, n, limit, before, g, k - 1);
    }
  }

  /** More submissions, up to the limit, that no worker gets to. */
  lemma {:induction false} FillUp(hash: Payload -> string, n: nat, limit: int, moves: seq<Move>, f: Front, k: nat, o: nat)
    returns (moves': seq<Move>, g: Front)
    requires IsHash(hash) && n >= 1 && LeadsTo(hash, n, limit, moves, f) && Resting(hash, n, f, k)
    requires Outstanding(f.sys.redis) + o <= limit
    ensures LeadsTo(hash, n, limit, moves', g) && Resting(hash, n, g, k + o)
    ensures Outstanding(g.sys.redis) == Outstanding(f.sys.redis) + o
    ensures g.sys.redis.retry == f.sys.redis.retry && g.promotions == f.promotions
  {
    if o == 0 {
      moves', g := moves, f;
    } else {
      var before: seq<Move>, h: Front;
      before, h := FillUp(hash, n, limit, moves, f, k, o - 1);
      assert Name(hash, k + o - 1) !in h.markers;
      moves', g := SubmitOne(hash, n, limit, before, h, k + o - 1);
      FreshAfter(hash, h, g, k + o - 1);
    }
  }

  /** The first i submitters have passed the check. */
  predicate AllChecked(f: Front, k: nat, i: nat) {
    && i <= |f.phases|
    && (forall j :: 0 <= j < i ==> f.phases[j] == Admitted(Cand(k + j)))
    && forall j :: i <= j < |f.phases| ==> f.phases[j].Idle?
  }

  lemma {:induction false} CheckAll(hash: Payload -> string, n: nat, limit: int, moves: seq<Move>, f: Front, k: nat, i: nat)
    returns (moves': seq<Move>, g: Front)
    requires IsHash(hash) && LeadsTo(hash, n, limit, moves, f) && Resting(hash, n, f, k)
    requires Outstanding(f.sys.redis) < limit && i <= n
    ensures LeadsTo(hash, n, limit, moves', g) && AllChecked(g, k, i)
    ensures g == f.(phases := g.phases) && |g.phases| == n
  {
    if i == 0 {
      moves', g := moves, f;
    } else {
      var before: seq<Move>, h: Front;
      before, h := CheckAll(hash, n, limit, moves, f, k, i - 1);
      assert h.phases[i - 1].Idle?;
      hide LeadsTo, Resting, IsHash, Cand, Outstanding;
      CheckOne(hash, n, limit, before, h, i - 1, k + i - 1);
      moves', g := before + [Check(i - 1, Cand(k + i - 1))], h.(phases := h.phases[i - 1 := Admitted(Cand(k + i - 1))]);
    }
  }

  ghost predicate Unmarked(hash: Payload -> string, f: Front, from: nat, to: int) {
    forall j: nat :: from <= j < to ==> Name(hash, j) !in f.markers
  }

  /** Then the last i of them append, all admitted at the same outstanding work. */
  lemma {:induction false} AppendAll(hash: Payload -> string, n: nat, limit: int, moves: seq<Move>, f: Front, k: nat, i: nat)
    returns (moves': seq<Move>, g: Front)
    requires IsHash(hash) && LeadsTo(hash, n, limit, moves, f) && |f.phases| == n && AllChecked(f, k, n) && Unmarked(hash, f, k, k + n) && i <= n
    ensures LeadsTo(hash, n, limit, moves', g)
    ensures |g.phases| == n && AllChecked(g, k, n - i) && Unmarked(hash, g, k, k + n - i)
    ensures Outstanding(g.sys.redis) == Outstanding(f.sys.redis) + i
    ensures g.sys.redis.retry == f.sys.redis.retry && g.promotions == f.promotions
  {
    if i == 0 {
      moves', g := moves, f;
    } else {
      var before: seq<Move>, h: Front;
      before, h := AppendAll(hash, n, limit, moves, f, k, i - 1);
      hide LeadsTo, AllChecked, Unmarked;
      moves', g := AppendLast(hash, n, limit, before, h, k, n - i);
    }
  }

  lemma AppendLast(hash: Payload -> string, n: nat, limit: int, moves: seq<Move>, f: Front, k: nat, w: nat)
    returns (moves': seq<Move>, g: Front)
    requires IsHash(hash) && LeadsTo(hash, n, limit, moves, f) && AllChecked(f, k, w + 1) && Unmarked(hash, f, k, k + w + 1)
    ensures LeadsTo(hash, n, limit, moves', g)
    ensures |g.phases| == |f.phases| && AllChecked(g, k, w) && Unmarked(hash, g, k, k + w)
    ensures Outstanding(g.sys.redis) == Outstanding(f.sys.redis) + 1
    ensures g.sys.redis.retry == f.sys.redis.retry && g.promotions == f.promotions
  {
    assert Name(hash, k + w) !in f.markers;
    AppendLeaves(hash, f, k, w);
    hide LeadsTo, Cand, Name, AllChecked, Unmarked, Task, IsHash;
    MarkAndAppend(hash, n, limit, moves, f, w, k + w);
    moves', g := moves + [Mark(w)] + [Append(w)], WithEntry(hash, f, w, k + w);
  }

  lemma AppendLeaves(hash: Payload -> string, f: Front, k: nat, w: nat)
    requires IsHash(hash) && AllChecked(f, k, w + 1) && Unmarked(hash, f, k, k + w + 1)
    ensures f.phases[w] == Admitted(Cand(k + w))
    ensures AllChecked(WithEntry(hash, f, w, k + w), k, w) && Unmarked(hash, WithEntry(hash, f, w, k + w), k, k + w)
  {
    hide Cand, Name, Task, Appended;
    forall j: nat | k <= j < k + w ensures Name(hash, j) !in WithEntry(hash, f, w, k + w).markers {
      NamesDiffer(hash, j, k + w);
      assert Name(hash, j) !in f.markers;
    }
  }

  lemma {:induction false} PromoteMany(hash: Payload -> string, n: nat, limit: int, moves: seq<Move>, f: Front, p: nat)
    returns (moves': seq<Move>, g: Front)
    requires LeadsTo(hash, n, limit, moves, f) && p <= |f.sys.redis.retry|
    ensures LeadsTo(hash, n, limit, moves', g)
    ensures Outstanding(g.sys.redis) == Outstanding(f.sys.redis) + p
    ensures |g.sys.redis.retry| == |f.sys.redis.retry| - p && g.promotions == f.promotions + p
  {
    if p == 0 {
      moves', g := moves, f;
    } else {
      var before: seq<Move>, h: Front;
      before, h := PromoteMany(hash, n, limit, moves, f, p - 1);
      var job := SomeRetry(h.sys.redis.retry);
      var promote := Act(Promoting(job));
      MoveOn(hash, n, limit, before, h, promote);
      moves', g := before + [promote], Moved(hash, h, promote, limit);
      assert (h.sys.redis.retry - {job}).Keys == h.sys.redis.retry.Keys - {job};
      assert |h.sys.redis.retry.Keys| == |h.sys.redis.retry| && |(h.sys.redis.retry - {job}).Keys| == |h.sys.redis.retry - {job}|;
    }
  }

  lemma SomeRetry(retry: map<Job, real>) returns (job: Job)
    requires |retry| > 0
    ensures job in retry
  {
    assert retry.Keys != {};
    job :| job in retry.Keys;
  }

  /**
   The bound is attained, whatever the number of submitters, the limit and the number of promotions:
   retries that failed before are outside the figure while the limit is filled up and overshot, and
   come back on top of it.
   */
  lemma BoundIsAttained(hash: Payload -> string, submitters: nat, limit: int, promotions: nat) returns (moves: seq<Move>, f: Front)
    requires IsHash(hash) && submitters >= 1 && limit >= 1
    ensures LeadsTo(hash, submitters, limit, moves, f) && f.promotions == promotions
    ensures Outstanding(f.sys.redis) == limit + submitters - 1 + promotions
  {
    moves, f := DelayMany(hash, submitters, limit, promotions);
    moves, f := FillUp(hash, submitters, limit, moves, f, promotions, limit - 1);
    var k := promotions + limit - 1;
    assert Fresh(hash, f, k);
    moves, f := CheckAll(hash, submitters, limit, moves, f, k, submitters);
    assert Unmarked(hash, f, k, k + submitters);
    moves, f := AppendAll(hash, submitters, limit, moves, f, k, submitters);
    moves, f := PromoteMany(hash, submitters, limit, moves, f, promotions);
  }

  /** In every run with so many promotions the outstanding work passes the limit by no more than the
      other submitters. */
  ghost predicate WithinSubmitters(hash: Payload -> string, submitters: nat, limit: int, promotions: nat) {
    forall moves, f | LeadsTo(hash, submitters, limit, moves, f) && f.promotions == promotions ::
      Outstanding(f.sys.redis) <= limit + submitters - 1
  }

  /** That is so exactly while no retry has been promoted: promotions are not subject to admission. */
  lemma WithinSubmittersExactly(hash: Payload -> string, submitters: nat, limit: int, promotions: nat)
    requires IsHash(hash) && submitters >= 1 && limit >= 1
    ensures WithinSubmitters(hash, submitters, limit, promotions) <==> promotions == 0
  {
    if promotions == 0 {
      forall moves, f | LeadsTo(hash, submitters, limit, moves, f) && f.promotions == promotions
        ensures Outstanding(f.sys.redis) <= limit + submitters - 1
      {
        AppendedOnceAndBounded(hash, submitters, moves, limit);
      }
    } else {
      var moves: seq<Move>, f: Front;
      moves, f := BoundIsAttained(hash, submitters, limit, promotions);
    }
  }
}
