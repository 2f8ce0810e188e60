/**
 Claiming as the three Redis calls it really is: a delivery (or a takeover of a pending
 entry), a read of the attempt on record and a write of the next one. From the first call to
 the last the worker has a window open on the job; any number of windows may be open on one
 job, steps of other workers come in between, and a worker may die inside its window.

 A write is sound when what the worker read is still on record and its entry is still pending.
 A run whose writes are sound is a run of Protocol; the first write that is not sound gives out
 an attempt again or breaks the invariant.
 */
module SplitClaim {
  import opened Wrappers
  import opened Jobs
  import opened Protocol
  import opened ProtocolInvariant
  import opened ProtocolTheorems
  import opened Outcome

  /** The entry a worker was given and the attempt it has read, if it has. */
  datatype Window = Window(entry: nat, job: Job, read: Option<nat>)

  /** `open` holds the windows by job id and worker. */
  datatype Split = Split(sys: System, open: map<(string, string), Window>)

  datatype SplitStep =
    | Atomic(step: Step)
    | Deliver(to: string)
    | TakeOver(pending: nat, to: string)
    | ReadAttempt(id: string, reader: string)
    | WriteClaim(id: string, writer: string)
    | Abandon(id: string, dead: string)

  /** `mark_claimed` with the attempt a worker computed from what it read. */
  function Marked(r: Redis, id: string, worker: string, attempt: nat): Redis {
    r.(state := r.state[id := HashClaimed(Lookup(r.state, id), worker, attempt)])
  }

  predicate ValidAt(r: Redis, e: nat) {
    e < |r.stream| && r.stream[e].Valid?
  }

  function JobAt(r: Redis, e: nat): Job
    requires ValidAt(r, e)
  {
    r.stream[e].job
  }

  function AttemptOf(r: Redis, id: string): nat {
    Attempts(Lookup(r.state, id))
  }

  /** When a step may happen. The code checks nothing before its write. */
  predicate SplitEnabled(x: Split, step: SplitStep) {
    var r := x.sys.redis;
    match step
    case Atomic(a) =>
      && Enabled(x.sys, a)
      && (a.Claiming? ==> r.stream[r.cursor].Malformed?)
      && (a.Reclaiming? ==> r.stream[a.pending].Malformed?)
    case Deliver(_) => ValidAt(r, r.cursor)
    case TakeOver(e, _) => e in r.pel && ValidAt(r, e)
    case ReadAttempt(id, w) => (id, w) in x.open
    case WriteClaim(id, w) => (id, w) in x.open && x.open[(id, w)].read.Some?
    case Abandon(id, w) => (id, w) in x.open
  }

  function SplitNext(x: Split, step: SplitStep): Split
    requires SplitEnabled(x, step)
  {
    var r := x.sys.redis;
    match step
    case Atomic(a) => x.(sys := Next(x.sys, a))
    case Deliver(w) =>
      var job := JobAt(r, r.cursor);
      Split(Next(x.sys, Delivering(w)), x.open[(job.jobId, w) := Window(r.cursor, job, None)])
    case TakeOver(e, w) =>
      var job := JobAt(r, e);
      Split(Next(x.sys, Passing(e, w)), x.open[(job.jobId, w) := Window(e, job, None)])
    case ReadAttempt(id, w) =>
      x.(open := x.open[(id, w) := x.open[(id, w)].(read := Some(AttemptOf(r, id)))])
    case WriteClaim(id, w) =>
      var window := x.open[(id, w)];
      var attempt := window.read.value + 1;
      Split(System(Marked(r, id, w, attempt), x.sys.claims + {Claim(window.entry, window.job, attempt, w)}),
            x.open - {(id, w)})
    case Abandon(id, w) => x.(open := x.open - {(id, w)})
  }

  predicate SplitFeasible(x: Split, steps: seq<SplitStep>)
    decreases |steps|, 0
  {
    |steps| == 0 ||
    (SplitFeasible(x, steps[..|steps| - 1]) && SplitEnabled(SplitAfter(x, steps[..|steps| - 1]), steps[|steps| - 1]))
  }

  function SplitAfter(x: Split, steps: seq<SplitStep>): Split
    requires SplitFeasible(x, steps)
    decreases |steps|, 1
  {
    if |steps| == 0 then x
    else SplitNext(SplitAfter(x, steps[..|steps| - 1]), steps[|steps| - 1])
  }

  const SPLIT_INITIAL := Split(INITIAL, map[])

  /** What the worker read is still on record. */
  predicate OnRecord(x: Split, step: SplitStep) {
    step.WriteClaim? && SplitEnabled(x, step) ==>
      x.open[(step.id, step.writer)].read.value == AttemptOf(x.sys.redis, step.id)
  }

  /** And its entry has not been acknowledged meanwhile. */
  predicate Sound(x: Split, step: SplitStep) {
    && OnRecord(x, step)
    && (step.WriteClaim? && SplitEnabled(x, step) ==> x.open[(step.id, step.writer)].entry in x.sys.redis.pel)
  }

  predicate SoundRun(steps: seq<SplitStep>)
    requires SplitFeasible(SPLIT_INITIAL, steps)
  {
    |steps| == 0 ||
    (SoundRun(steps[..|steps| - 1]) && Sound(SplitAfter(SPLIT_INITIAL, steps[..|steps| - 1]), steps[|steps| - 1]))
  }

  // ---------------------------------------------------------------------------
  // Windows
  // ---------------------------------------------------------------------------

  /** A window is on an entry of its job that has been delivered. */
  predicate WindowsOk(x: Split) {
    forall k :: k in x.open ==>
      var w := x.open[k];
      ValidAt(x.sys.redis, w.entry) && JobAt(x.sys.redis, w.entry) == w.job && w.job.jobId == k.0 && w.entry < x.sys.redis.cursor
  }

  lemma StreamGrows(s: System, step: Step)
    requires Enabled(s, step) && s.redis.cursor <= |s.redis.stream|
    ensures var r, r' := s.redis, Next(s, step).redis;
            && r.stream <= r'.stream && r.cursor <= r'.cursor <= |r'.stream|
  {
    match step
    case Finalising(c, verdict, now, due) =>
      if IsCurrent(s.redis, c) {
        FinaliseCurrent(s.redis, c, verdict, now, due);
      }
    case _ =>
  }

  lemma WindowsStay(x: Split, step: SplitStep)
    requires Inv(x.sys) && WindowsOk(x) && SplitEnabled(x, step)
    ensures WindowsOk(SplitNext(x, step))
  {
    assert Shape(x.sys.redis);
    hide Inv;
    match step
    case Atomic(a) =>
      StreamGrows(x.sys, a);
      hide Next;
    case _ =>
  }

  // ---------------------------------------------------------------------------
  // Refinement
  // ---------------------------------------------------------------------------

  /** The steps of Protocol a sound step stands for. A write is a reclaim; the second step gives
      the entry back to the worker that holds it by now. */
  function StepImages(x: Split, step: SplitStep): seq<Step> {
    match step
    case Atomic(a) => [a]
    case Deliver(w) => [Delivering(w)]
    case TakeOver(e, w) => [Passing(e, w)]
    case WriteClaim(id, w) =>
      if (id, w) in x.open && x.open[(id, w)].entry in x.sys.redis.pel
      then var e := x.open[(id, w)].entry; [Reclaiming(e, w), Passing(e, x.sys.redis.pel[e])]
      else []
    case _ => []
  }

  lemma Two(s: System, a: Step, b: Step)
    requires Enabled(s, a) && Enabled(Next(s, a), b)
    ensures Feasible(s, [a, b]) && After(s, [a, b]) == Next(Next(s, a), b)
  {
    Single(s, a);
    Extend(s, [a], b);
    assert [a] + [b] == [a, b];
  }

  lemma WriteRefines(x: Split, id: string, w: string)
    requires WindowsOk(x) && SplitEnabled(x, WriteClaim(id, w)) && Sound(x, WriteClaim(id, w))
    ensures Feasible(x.sys, StepImages(x, WriteClaim(id, w)))
    ensures After(x.sys, StepImages(x, WriteClaim(id, w))) == SplitNext(x, WriteClaim(id, w)).sys
  {
    var s, e := x.sys, x.open[(id, w)].entry;
    var take, back := Reclaiming(e, w), Passing(e, s.redis.pel[e]);
    Two(s, take, back);
    assert s.redis.pel[e := w][e := s.redis.pel[e]] == s.redis.pel;
  }

  lemma StepRefines(x: Split, step: SplitStep)
    requires WindowsOk(x) && SplitEnabled(x, step) && Sound(x, step)
    ensures Feasible(x.sys, StepImages(x, step))
    ensures After(x.sys, StepImages(x, step)) == SplitNext(x, step).sys
  {
    match step
    case Atomic(a) => Single(x.sys, a);
    case Deliver(w) => Single(x.sys, Delivering(w));
    case TakeOver(e, w) => Single(x.sys, Passing(e, w));
    case WriteClaim(id, w) => WriteRefines(x, id, w);
    case _ =>
      assert After(x.sys, []) == x.sys;
  }

  function RunImages(steps: seq<SplitStep>): seq<Step>
    requires SplitFeasible(SPLIT_INITIAL, steps)
  {
    if |steps| == 0 then []
    else RunImages(steps[..|steps| - 1]) + StepImages(SplitAfter(SPLIT_INITIAL, steps[..|steps| - 1]), steps[|steps| - 1])
  }

  /** Every run whose writes are sound is a run of Protocol and leads to the same system. */
  lemma {:induction false} SplitRefines(steps: seq<SplitStep>)
    requires SplitFeasible(SPLIT_INITIAL, steps) && SoundRun(steps)
    ensures Feasible(INITIAL, RunImages(steps))
    ensures After(INITIAL, RunImages(steps)) == SplitAfter(SPLIT_INITIAL, steps).sys
    ensures Inv(SplitAfter(SPLIT_INITIAL, steps).sys) && WindowsOk(SplitAfter(SPLIT_INITIAL, steps))
  {
    hide Next, SplitNext, SplitEnabled, Sound, StepImages, Inv, WindowsOk;
    if |steps| == 0 {
      InitialInv();
      NoWindows();
    } else {
      var front, last := steps[..|steps| - 1], steps[|steps| - 1];
      var x := SplitAfter(SPLIT_INITIAL, front);
      SplitRefines(front);
      StepRefines(x, last);
      Continue(INITIAL, RunImages(front), StepImages(x, last));
      RunKeeps(x.sys, StepImages(x, last));
      WindowsStay(x, last);
    }
  }

  lemma NoWindows()
    ensures WindowsOk(SPLIT_INITIAL)
  {
  }

  /** So at every moment of such a run, whatever windows are open, the system is a reachable one of
      Protocol, and all that holds of those holds of it. */
  lemma SplitIsReachable(steps: seq<SplitStep>)
    requires SplitFeasible(SPLIT_INITIAL, steps) && SoundRun(steps)
    ensures Reachable(SplitAfter(SPLIT_INITIAL, steps).sys)
  {
    SplitRefines(steps);
  }

  // ---------------------------------------------------------------------------
  // Attempts
  // ---------------------------------------------------------------------------

  /** The attempt a write gives out. */
  function NewAttempt(x: Split, step: SplitStep): nat
    requires SplitEnabled(x, step) && step.WriteClaim?
  {
    x.open[(step.id, step.writer)].read.value + 1
  }

  /** The attempts given out on job `id`, in order. */
  function Given(steps: seq<SplitStep>, id: string): seq<nat>
    requires SplitFeasible(SPLIT_INITIAL, steps)
  {
    if |steps| == 0 then []
    else
      var front, last := steps[..|steps| - 1], steps[|steps| - 1];
      Given(front, id)
      + if last.WriteClaim? && last.id == id then [NewAttempt(SplitAfter(SPLIT_INITIAL, front), last)] else []
  }

  /** Every write on job `id` found what it had read still on record. */
  predicate OnRecordRun(steps: seq<SplitStep>, id: string)
    requires SplitFeasible(SPLIT_INITIAL, steps)
  {
    |steps| == 0 ||
    var front, last := steps[..|steps| - 1], steps[|steps| - 1];
    OnRecordRun(front, id)
    && (last.WriteClaim? && last.id == id ==> OnRecord(SplitAfter(SPLIT_INITIAL, front), last))
  }

  predicate NoRepeats(a: seq<nat>) {
    forall i, j :: 0 <= i < j < |a| ==> a[i] != a[j]
  }

  function UpTo(n: nat): (a: seq<nat>)
    ensures |a| == n && forall i :: 0 <= i < n ==> a[i] == i + 1
  {
    seq(n, i => i + 1)
  }

  /** Only a write on a job moves its attempt on record. */
  lemma AttemptsMoveByWrites(x: Split, step: SplitStep, id: string)
    requires SplitEnabled(x, step) && !(step.WriteClaim? && step.id == id)
    ensures AttemptOf(SplitNext(x, step).sys.redis, id) == AttemptOf(x.sys.redis, id)
  {
    match step
    case Atomic(a) =>
      if a.Finalising? {
        FinaliseAttempts(x.sys.redis, a.claim, a.verdict, a.now, a.due, id);
      }
    case _ =>
  }

  /** No window has read more than is on record. */
  ghost predicate ReadsBelow(x: Split, id: string) {
    forall w: string :: (id, w) in x.open && x.open[(id, w)].read.Some? ==> x.open[(id, w)].read.value <= AttemptOf(x.sys.redis, id)
  }

  lemma ReadsStayBelow(x: Split, step: SplitStep, id: string)
    requires SplitEnabled(x, step) && ReadsBelow(x, id)
    requires step.WriteClaim? && step.id == id ==> OnRecord(x, step)
    ensures ReadsBelow(SplitNext(x, step), id)
    ensures step.WriteClaim? && step.id == id ==> AttemptOf(SplitNext(x, step).sys.redis, id) == AttemptOf(x.sys.redis, id) + 1
  {
    if !(step.WriteClaim? && step.id == id) {
      AttemptsMoveByWrites(x, step, id);
      hide Next, AttemptOf;
    }
  }

  /** As long as writes are on record, the attempts given out are 1, 2, 3 and so on. */
  lemma {:induction false} GivenAreAllAttempts(steps: seq<SplitStep>, id: string)
    requires SplitFeasible(SPLIT_INITIAL, steps) && OnRecordRun(steps, id)
    ensures var x := SplitAfter(SPLIT_INITIAL, steps);
            Given(steps, id) == UpTo(AttemptOf(x.sys.redis, id)) && ReadsBelow(x, id)
  {
    hide SplitNext, SplitEnabled, AttemptOf, ReadsBelow;
    if |steps| == 0 {
      NothingGiven(id);
    } else {
      var front, last := steps[..|steps| - 1], steps[|steps| - 1];
      GivenAreAllAttempts(front, id);
      var x := SplitAfter(SPLIT_INITIAL, front);
      ReadsStayBelow(x, last, id);
      if last.WriteClaim? && last.id == id {
        assert Given(steps, id) == UpTo(AttemptOf(x.sys.redis, id)) + [AttemptOf(x.sys.redis, id) + 1] by {
          ReadIsRecord(x, last);
        }
      } else {
        AttemptsMoveByWrites(x, last, id);
      }
    }
  }

  lemma NothingGiven(id: string)
    ensures AttemptOf(SPLIT_INITIAL.sys.redis, id) == 0 && ReadsBelow(SPLIT_INITIAL, id)
  {
  }

  lemma ReadIsRecord(x: Split, step: SplitStep)
    requires SplitEnabled(x, step) && step.WriteClaim? && OnRecord(x, step)
    ensures (step.id, step.writer) in x.open && x.open[(step.id, step.writer)].read == Some(AttemptOf(x.sys.redis, step.id))
  {
  }

  /** The claims given out on a job hold distinct attempts exactly when every write on it found what
      it had read still on record. */
  lemma {:induction false} DistinctExactly(steps: seq<SplitStep>, id: string)
    requires SplitFeasible(SPLIT_INITIAL, steps)
    ensures NoRepeats(Given(steps, id)) <==> OnRecordRun(steps, id)
  {
    if |steps| > 0 {
      var front, last := steps[..|steps| - 1], steps[|steps| - 1];
      DistinctExactly(front, id);
      if last.WriteClaim? && last.id == id {
        var attempt := NewAttempt(SplitAfter(SPLIT_INITIAL, front), last);
        NoRepeatsWith(Given(front, id), attempt);
        assert Given(steps, id) == Given(front, id) + [attempt];
        if OnRecordRun(front, id) {
          NextIsNew(front, last, id);
        }
      } else {
        assert Given(steps, id) == Given(front, id);
      }
    }
  }

  lemma NoRepeatsWith(a: seq<nat>, n: nat)
    ensures NoRepeats(a + [n]) <==> NoRepeats(a) && n !in a
  {
    var b := a + [n];
    if NoRepeats(b) {
      forall i, j | 0 <= i < j < |a| ensures a[i] != a[j] {
        assert b[i] != b[j];
      }
      forall i | 0 <= i < |a| ensures a[i] != n {
        assert b[i] != b[|a|];
      }
    }
  }

  lemma NextIsNew(front: seq<SplitStep>, last: SplitStep, id: string)
    requires SplitFeasible(SPLIT_INITIAL, front) && SplitEnabled(SplitAfter(SPLIT_INITIAL, front), last)
    requires OnRecordRun(front, id) && last.WriteClaim? && last.id == id
    ensures var x := SplitAfter(SPLIT_INITIAL, front);
            NewAttempt(x, last) !in Given(front, id) <==> OnRecord(x, last)
  {
    var x := SplitAfter(SPLIT_INITIAL, front);
    GivenAreAllAttempts(front, id);
    var read := x.open[(id, last.writer)].read.value;
    assert read <= AttemptOf(x.sys.redis, id);
    if read < AttemptOf(x.sys.redis, id) {
      assert Given(front, id)[read] == read + 1;
    }
  }

  // ---------------------------------------------------------------------------
  // Soundness is needed
  // ---------------------------------------------------------------------------

  lemma ClaimsArePending(s: System, c: Claim)
    requires Inv(s) && c in s.claims && IsCurrent(s.redis, c)
    ensures c.entry in s.redis.pel
  {
    CurrentClaim(s, c);
    assert c.entry in View(s, c.job.jobId).pending;
  }

  /** Of a write that finds what it had read on record, the invariant survives exactly if the entry
      is still pending. */
  lemma WriteKeepsExactly(x: Split, id: string, w: string)
    requires Inv(x.sys) && WindowsOk(x) && SplitEnabled(x, WriteClaim(id, w)) && OnRecord(x, WriteClaim(id, w))
    ensures Inv(SplitNext(x, WriteClaim(id, w)).sys) <==> x.open[(id, w)].entry in x.sys.redis.pel
  {
    var y, window := SplitNext(x, WriteClaim(id, w)), x.open[(id, w)];
    if window.entry in x.sys.redis.pel {
      WriteRefines(x, id, w);
      RunKeeps(x.sys, StepImages(x, WriteClaim(id, w)));
    } else if Inv(y.sys) {
      ClaimsArePending(y.sys, Claim(window.entry, window.job, window.read.value + 1, w));
    }
  }

  /** After a sound run, a write is sound exactly if its attempt is new and the invariant survives. */
  lemma SoundExactly(front: seq<SplitStep>, last: SplitStep)
    requires SplitFeasible(SPLIT_INITIAL, front) && SoundRun(front)
    requires SplitEnabled(SplitAfter(SPLIT_INITIAL, front), last) && last.WriteClaim?
    ensures var x := SplitAfter(SPLIT_INITIAL, front);
            Sound(x, last) <==> NewAttempt(x, last) !in Given(front, last.id) && Inv(SplitNext(x, last).sys)
  {
    var x := SplitAfter(SPLIT_INITIAL, front);
    SoundIsOnRecord(front, last.id);
    SplitRefines(front);
    hide *;
    NextIsNew(front, last, last.id);
    SoundIfOnRecord(x, last);
  }

  lemma SoundIfOnRecord(x: Split, step: SplitStep)
    requires Inv(x.sys) && WindowsOk(x) && SplitEnabled(x, step) && step.WriteClaim?
    ensures Sound(x, step) <==> OnRecord(x, step) && Inv(SplitNext(x, step).sys)
  {
    hide Inv, WindowsOk, SplitNext;
    if OnRecord(x, step) {
      WriteKeepsExactly(x, step.id, step.writer);
    }
  }

  lemma {:induction false} SoundIsOnRecord(steps: seq<SplitStep>, id: string)
    requires SplitFeasible(SPLIT_INITIAL, steps) && SoundRun(steps)
    ensures OnRecordRun(steps, id)
  {
    if |steps| > 0 {
      SoundIsOnRecord(steps[..|steps| - 1], id);
    }
  }

  /** An entry that has been delivered and acknowledged never becomes pending again. */
  lemma GoneStaysGone(x: Split, step: SplitStep, e: nat)
    requires SplitEnabled(x, step) && e < x.sys.redis.cursor && e !in x.sys.redis.pel
    ensures e < SplitNext(x, step).sys.redis.cursor && e !in SplitNext(x, step).sys.redis.pel
  {
    match step
    case Atomic(a) =>
      PendingNextGrows(x.sys, a);
      hide Next;
    case _ =>
  }

  /** Only the next undelivered entry can become pending. */
  lemma PendingNextGrows(s: System, step: Step)
    requires Enabled(s, step)
    ensures s.redis.cursor <= Next(s, step).redis.cursor
    ensures Next(s, step).redis.pel.Keys <= s.redis.pel.Keys + {s.redis.cursor}
    ensures s.redis.cursor in Next(s, step).redis.pel && s.redis.cursor !in s.redis.pel ==> s.redis.cursor < Next(s, step).redis.cursor
  {
    match step
    case Finalising(c, verdict, now, due) =>
      if IsCurrent(s.redis, c) {
        FinaliseCurrent(s.redis, c, verdict, now, due);
      }
    case _ =>
  }

  lemma {:induction false} GoneForGood(x: Split, steps: seq<SplitStep>, e: nat)
    requires SplitFeasible(x, steps) && e < x.sys.redis.cursor && e !in x.sys.redis.pel
    ensures e < SplitAfter(x, steps).sys.redis.cursor && e !in SplitAfter(x, steps).sys.redis.pel
    decreases |steps|
  {
    hide SplitNext, SplitEnabled;
    if |steps| > 0 {
      GoneForGood(x, steps[..|steps| - 1], e);
      GoneStaysGone(SplitAfter(x, steps[..|steps| - 1]), steps[|steps| - 1], e);
    }
  }

  /**
   However the holder of a job finalises it while another worker has a window open on it, the
   window's entry is acknowledged, for good. If that worker goes on to write, and what it read is
   on record, it holds the current claim of an entry that is not pending: the invariant is gone,
   and the outcome the holder's finalise had settled is reported as pending again.
   */
  lemma FinaliseInsideWindow(x: Split, id: string, w: string, c: Claim, verdict: Verdict, now: real, due: real)
    requires Inv(x.sys) && WindowsOk(x) && SplitEnabled(x, WriteClaim(id, w))
    requires c in x.sys.claims && c.job.jobId == id && IsCurrent(x.sys.redis, c)
    ensures var y := SplitNext(x, Atomic(Finalising(c, verdict, now, due)));
            && y.open == x.open && !Sound(y, WriteClaim(id, w))
            && x.open[(id, w)].entry < y.sys.redis.cursor && x.open[(id, w)].entry !in y.sys.redis.pel
            && (OnRecord(x, WriteClaim(id, w)) ==>
                  && !Inv(SplitNext(y, WriteClaim(id, w)).sys)
                  && Reopened(y.sys.redis, SplitNext(y, WriteClaim(id, w)).sys.redis, id))
  {
    var step := Finalising(c, verdict, now, due);
    var y := SplitNext(x, Atomic(step));
    FinaliseReleases(x, id, w, c, verdict, now, due);
    FinaliseKeeps(x.sys, c, verdict, now, due);
    WindowsStay(x, Atomic(step));
    FinaliseAttempts(x.sys.redis, c, verdict, now, due, id);
    assert c.job in JobsOf(y.sys.redis, id) by {
      FinaliseKeepsJobs(x.sys, c, verdict, now, due);
    }
    hide Next, Finalise, Inv, WindowsOk;
    if OnRecord(x, WriteClaim(id, w)) {
      WriteKeepsExactly(y, id, w);
      WriteReopens(y, id, w, c.job);
    }
  }

  /** The job is reported as pending, and if it was settled before it is in no place any more. */
  ghost predicate Reopened(before: Redis, after: Redis, id: string) {
    && HasStatus(Lookup(after.state, id), Claimed) && !IsTerminal(after, id)
    && (IsTerminal(before, id) ==> Queued(after, id) == {} && Pending(after, id) == {} && Delayed(after, id) == {})
  }

  lemma FinaliseKeepsJobs(s: System, c: Claim, verdict: Verdict, now: real, due: real)
    requires Inv(s) && c in s.claims && IsCurrent(s.redis, c)
    ensures c.job in JobsOf(Next(s, Finalising(c, verdict, now, due)).redis, c.job.jobId)
  {
    CurrentClaim(s, c);
    FinaliseCurrent(s.redis, c, verdict, now, due);
    assert c.job in View(s, c.job.jobId).jobs;
    assert JobsOf(Next(s, Finalising(c, verdict, now, due)).redis, c.job.jobId) == JobsOf(s.redis, c.job.jobId);
  }

  lemma FinaliseReleases(x: Split, id: string, w: string, c: Claim, verdict: Verdict, now: real, due: real)
    requires Inv(x.sys) && WindowsOk(x) && (id, w) in x.open
    requires c in x.sys.claims && c.job.jobId == id && IsCurrent(x.sys.redis, c)
    ensures var r' := Next(x.sys, Finalising(c, verdict, now, due)).redis;
            x.open[(id, w)].entry < r'.cursor && x.open[(id, w)].entry !in r'.pel
  {
    WindowIsHeld(x, id, w, c);
    FinaliseCurrent(x.sys.redis, c, verdict, now, due);
    FinaliseRetry(x.sys.redis, c, verdict, now, due);
  }

  lemma WriteReopens(y: Split, id: string, w: string, j: Job)
    requires Inv(y.sys) && SplitEnabled(y, WriteClaim(id, w)) && j.jobId == id && j in JobsOf(y.sys.redis, id)
    ensures Reopened(y.sys.redis, SplitNext(y, WriteClaim(id, w)).sys.redis, id)
  {
    var r, r' := y.sys.redis, SplitNext(y, WriteClaim(id, w)).sys.redis;
    if IsTerminal(r, id) {
      NothingLeft(y.sys, j);
    }
    hide Inv;
    assert r' == r.(state := r'.state);
    SamePlaces(r, r', id);
  }

  /** The window of a job that a worker still holds is on the entry it holds, or on one long gone. */
  lemma WindowIsHeld(x: Split, id: string, w: string, c: Claim)
    requires Inv(x.sys) && WindowsOk(x) && (id, w) in x.open
    requires c in x.sys.claims && c.job.jobId == id && IsCurrent(x.sys.redis, c)
    ensures x.open[(id, w)].entry in x.sys.redis.pel ==> x.open[(id, w)].entry == c.entry
  {
    var e := x.open[(id, w)].entry;
    CurrentClaim(x.sys, c);
    assert e in x.sys.redis.pel ==> e in View(x.sys, id).pending;
  }

  lemma NothingLeft(s: System, j: Job)
    requires Inv(s) && IsTerminal(s.redis, j.jobId) && j in JobsOf(s.redis, j.jobId)
    ensures Queued(s.redis, j.jobId) == {} && Pending(s.redis, j.jobId) == {} && Delayed(s.redis, j.jobId) == {}
  {
    var v := View(s, j.jobId);
    assert Good(v) && j in v.jobs;
    assert Settled(v.hash);
  }

  lemma SamePlaces(a: Redis, b: Redis, id: string)
    requires b == a.(state := b.state)
    ensures Queued(b, id) == Queued(a, id) && Pending(b, id) == Pending(a, id) && Delayed(b, id) == Delayed(a, id)
  {
  }

  /** While a pending job is not claimed, as after a first delivery, no worker can finalise it. */
  lemma FirstDeliveryNeedsNoGuard(s: System, id: string, c: Claim)
    requires Inv(s) && !HasStatus(Lookup(s.redis.state, id), Claimed)
    requires c in s.claims && c.job.jobId == id
    ensures !IsCurrent(s.redis, c)
  {
    if IsCurrent(s.redis, c) {
      CurrentClaim(s, c);
    }
  }

  // ---------------------------------------------------------------------------
  // When a write is sound
  // ---------------------------------------------------------------------------

  /** The step neither writes an attempt of the job, nor finalises its current claim, nor touches the window. */
  predicate Quiet(x: Split, step: SplitStep, id: string, w: string)
    requires SplitEnabled(x, step) && (id, w) in x.open
  {
    && !(step.WriteClaim? && step.id == id)
    && !(step.Atomic? && step.step.Finalising? && step.step.claim.job.jobId == id && IsCurrent(x.sys.redis, step.step.claim))
    && (id, w) in SplitNext(x, step).open && SplitNext(x, step).open[(id, w)] == x.open[(id, w)]
  }

  lemma QuietStep(x: Split, step: SplitStep, id: string, w: string)
    requires Inv(x.sys) && WindowsOk(x) && SplitEnabled(x, step) && (id, w) in x.open && Quiet(x, step, id, w)
    requires x.open[(id, w)].entry in x.sys.redis.pel
    ensures x.open[(id, w)].entry in SplitNext(x, step).sys.redis.pel
    ensures AttemptOf(SplitNext(x, step).sys.redis, id) == AttemptOf(x.sys.redis, id)
  {
    AttemptsMoveByWrites(x, step, id);
    match step
    case Atomic(a) => StaysPending(x.sys, a, x.open[(id, w)].entry, id);
    case _ =>
  }

  lemma StaysPending(s: System, step: Step, e: nat, id: string)
    requires Inv(s) && Enabled(s, step) && e in s.redis.pel && IsEntry(s.redis, e, id)
    requires step.Claiming? ==> s.redis.stream[s.redis.cursor].Malformed?
    requires step.Reclaiming? ==> s.redis.stream[step.pending].Malformed?
    requires step.Finalising? && step.claim.job.jobId == id ==> !IsCurrent(s.redis, step.claim)
    ensures e in Next(s, step).redis.pel
  {
    assert e < s.redis.cursor;
    if step.Finalising? && IsCurrent(s.redis, step.claim) {
      CurrentClaim(s, step.claim);
      FinaliseCurrent(s.redis, step.claim, step.verdict, step.now, step.due);
    }
  }

  /** Every step from the k-th on is quiet for the window. */
  predicate QuietFrom(steps: seq<SplitStep>, k: nat, id: string, w: string)
    requires k <= |steps| && SplitFeasible(SPLIT_INITIAL, steps)
  {
    if k == |steps| then true
    else
      var front, last := steps[..|steps| - 1], steps[|steps| - 1];
      var x := SplitAfter(SPLIT_INITIAL, front);
      QuietFrom(front, k, id, w) && (id, w) in x.open && Quiet(x, last, id, w)
  }

  /** A worker whose window is left in peace after its read makes a sound write. */
  lemma {:induction false} QuietWindowIsSound(steps: seq<SplitStep>, k: nat, id: string, w: string)
    requires k <= |steps| && SplitFeasible(SPLIT_INITIAL, steps) && SplitFeasible(SPLIT_INITIAL, steps[..k]) && SoundRun(steps)
    requires QuietFrom(steps, k, id, w)
    requires var x := SplitAfter(SPLIT_INITIAL, steps[..k]);
             SplitEnabled(x, WriteClaim(id, w)) && Sound(x, WriteClaim(id, w))
    ensures var x := SplitAfter(SPLIT_INITIAL, steps);
            SplitEnabled(x, WriteClaim(id, w)) && Sound(x, WriteClaim(id, w))
  {
    if k == |steps| {
      assert steps[..k] == steps;
    } else {
      var front, last := steps[..|steps| - 1], steps[|steps| - 1];
      assert front[..k] == steps[..k];
      QuietWindowIsSound(front, k, id, w);
      SplitRefines(front);
      QuietStep(SplitAfter(SPLIT_INITIAL, front), last, id, w);
    }
  }

  // ---------------------------------------------------------------------------
  // Two runs with a write that is not sound
  // ---------------------------------------------------------------------------

  ghost predicate SplitLeads(steps: seq<SplitStep>, x: Split) {
    SplitFeasible(SPLIT_INITIAL, steps) && SplitAfter(SPLIT_INITIAL, steps) == x
  }

  lemma SplitOn(steps: seq<SplitStep>, x: Split, step: SplitStep)
    requires SplitLeads(steps, x) && SplitEnabled(x, step)
    ensures SplitLeads(steps + [step], SplitNext(x, step))
  {
    assert (steps + [step])[..|steps|] == steps;
  }

  /** A run whose writes are sound so far. */
  ghost predicate SoundLeads(steps: seq<SplitStep>, x: Split) {
    SplitLeads(steps, x) && SoundRun(steps)
  }

  lemma SoundOn(steps: seq<SplitStep>, x: Split, step: SplitStep)
    requires SoundLeads(steps, x) && SplitEnabled(x, step) && Sound(x, step)
    ensures SoundLeads(steps + [step], SplitNext(x, step))
  {
    SplitOn(steps, x, step);
    assert (steps + [step])[..|steps|] == steps;
  }

  lemma SplitBegins()
    ensures SoundLeads([], SPLIT_INITIAL)
  {
  }

  /** The system right after a first delivery of its only job. */
  function FirstDelivery(job: Job, w: string): System {
    System(EMPTY.(stream := [Valid(job)], cursor := 1, pel := map[0 := w]), {})
  }

  lemma OneDelivery(job: Job, w: string)
    requires job.maxAttempts >= 1
    ensures SoundLeads([] + [Atomic(Produce(Valid(job)))] + [Deliver(w)],
                       Split(FirstDelivery(job, w), map[(job.jobId, w) := Window(0, job, None)]))
  {
    SplitBegins();
    var produce := Atomic(Produce(Valid(job)));
    var x1 := Split(System(EMPTY.(stream := [Valid(job)]), {}), map[]);
    assert SplitEnabled(SPLIT_INITIAL, produce) && SplitNext(SPLIT_INITIAL, produce) == x1;
    assert SplitEnabled(x1, Deliver(w));
    assert SplitNext(x1, Deliver(w)) == Split(FirstDelivery(job, w), map[(job.jobId, w) := Window(0, job, None)]);
    hide SplitNext, SplitEnabled, SoundLeads;
    SoundOn([], SPLIT_INITIAL, produce);
    SoundOn([] + [produce], x1, Deliver(w));
  }

  /** One job on the stream, delivered to a worker that has read its attempt. */
  lemma OneReader(job: Job, w: string) returns (steps: seq<SplitStep>, x: Split)
    requires job.maxAttempts >= 1
    ensures SoundLeads(steps, x)
    ensures x.sys == FirstDelivery(job, w)
    ensures x.open == map[(job.jobId, w) := Window(0, job, Some(0))]
  {
    hide SoundLeads;
    OneDelivery(job, w);
    var x2 := Split(FirstDelivery(job, w), map[(job.jobId, w) := Window(0, job, None)]);
    var read := ReadAttempt(job.jobId, w);
    x := x2.(open := map[(job.jobId, w) := Window(0, job, Some(0))]);
    assert SplitEnabled(x2, read) && SplitNext(x2, read) == x;
    SoundOn([] + [Atomic(Produce(Valid(job)))] + [Deliver(w)], x2, read);
    steps := [] + [Atomic(Produce(Valid(job)))] + [Deliver(w)] + [read];
  }

  /** Two workers have windows on one entry and both read before either writes: both are given
      attempt 1, both claims are current, and both results are announced. */
  lemma SharedWindowSharesAttempt(job: Job, w1: string, w2: string, result: HandlerResult)
    returns (steps: seq<SplitStep>, x: Split, y: Split)
    requires job.maxAttempts >= 1 && w1 != w2
    ensures var c1, c2 := Claim(0, job, 1, w1), Claim(0, job, 1, w2);
            && SplitLeads(steps, x)
            && x.sys.claims == {c1, c2} && IsCurrent(x.sys.redis, c1) && IsCurrent(x.sys.redis, c2)
            && SplitLeads(steps + [Atomic(Commit(c1, result))] + [Atomic(Commit(c2, result))], y)
            && |EventsOf(y.sys.redis.events, job.jobId)| == 2
  {
    var id := job.jobId;
    var c1, c2 := Claim(0, job, 1, w1), Claim(0, job, 1, w2);
    var x0: Split;
    steps, x0 := OneReader(job, w1);
    var x1 := SplitNext(x0, TakeOver(0, w2));
    SplitOn(steps, x0, TakeOver(0, w2));
    var x2 := SplitNext(x1, ReadAttempt(id, w2));
    SplitOn(steps + [TakeOver(0, w2)], x1, ReadAttempt(id, w2));
    assert x2.open == map[(id, w1) := Window(0, job, Some(0)), (id, w2) := Window(0, job, Some(0))];
    steps := steps + [TakeOver(0, w2)] + [ReadAttempt(id, w2)];
    x := TwoWrites(steps, x2, job, w1, w2);
    steps := steps + [WriteClaim(id, w1)] + [WriteClaim(id, w2)];
    y := TwoCommits(steps, x, c1, c2, result);
  }

  function Commit(c: Claim, result: HandlerResult): Step {
    Finalising(c, Returned(Some(result)), 0.0, 0.0)
  }

  lemma TwoWrites(steps: seq<SplitStep>, x: Split, job: Job, w1: string, w2: string) returns (y: Split)
    requires SplitLeads(steps, x) && w1 != w2 && x.sys.claims == {} && x.sys.redis.state == map[]
    requires x.open == map[(job.jobId, w1) := Window(0, job, Some(0)), (job.jobId, w2) := Window(0, job, Some(0))]
    ensures SplitLeads(steps + [WriteClaim(job.jobId, w1)] + [WriteClaim(job.jobId, w2)], y)
    ensures y.sys.claims == {Claim(0, job, 1, w1), Claim(0, job, 1, w2)}
    ensures y.sys.redis == x.sys.redis.(state := y.sys.redis.state)
    ensures job.jobId in y.sys.redis.state && y.sys.redis.state[job.jobId].attempt == Some(1)
  {
    var id := job.jobId;
    var mid := SplitNext(x, WriteClaim(id, w1));
    SplitOn(steps, x, WriteClaim(id, w1));
    y := SplitNext(mid, WriteClaim(id, w2));
    SplitOn(steps + [WriteClaim(id, w1)], mid, WriteClaim(id, w2));
  }

  /** A commit announces its result and leaves every other claim with the same attempt current. */
  lemma CommitOn(steps: seq<SplitStep>, x: Split, c: Claim, d: Claim, result: HandlerResult) returns (y: Split)
    requires SplitLeads(steps, x) && c in x.sys.claims && d in x.sys.claims
    requires IsCurrent(x.sys.redis, c) && IsCurrent(x.sys.redis, d)
    ensures SplitLeads(steps + [Atomic(Commit(c, result))], y)
    ensures y.sys.redis.events == x.sys.redis.events + [Protocol.EventOf(c, result)]
    ensures y.sys.claims == x.sys.claims - {c} && (c.job.jobId == d.job.jobId ==> IsCurrent(y.sys.redis, d))
  {
    y := SplitNext(x, Atomic(Commit(c, result)));
    hide SplitLeads;
    SplitOn(steps, x, Atomic(Commit(c, result)));
  }

  lemma TwoCommits(steps: seq<SplitStep>, x: Split, c1: Claim, c2: Claim, result: HandlerResult) returns (y: Split)
    requires SplitLeads(steps, x) && c1 != c2 && c1.job == c2.job && {c1, c2} <= x.sys.claims
    requires IsCurrent(x.sys.redis, c1) && IsCurrent(x.sys.redis, c2) && x.sys.redis.events == []
    ensures SplitLeads(steps + [Atomic(Commit(c1, result))] + [Atomic(Commit(c2, result))], y)
    ensures |EventsOf(y.sys.redis.events, c1.job.jobId)| == 2
  {
    var first, second := Atomic(Commit(c1, result)), Atomic(Commit(c2, result));
    var mid := CommitOn(steps, x, c1, c2, result);
    y := CommitOn(steps + [first], mid, c2, c2, result);
    hide SplitLeads;
    EventsAppend([], Protocol.EventOf(c1, result), c1.job.jobId);
    EventsAppend(mid.sys.redis.events, Protocol.EventOf(c2, result), c1.job.jobId);
    assert EventsOf([], c1.job.jobId) == [];
  }

  /** The holder of a job finalises it, in whatever way, between another worker's takeover and that
      worker's write; the write takes the outcome back and leaves the job in no place. */
  lemma FinaliseInsideTakeoverIsUndone(job: Job, w1: string, w2: string, verdict: Verdict, now: real, due: real)
    returns (steps: seq<SplitStep>, y: Split, z: Split)
    requires job.maxAttempts >= 1 && w1 != w2
    ensures var finalise := Atomic(Finalising(Claim(0, job, 1, w1), verdict, now, due));
            && SplitLeads(steps + [finalise], y)
            && (IsTerminal(y.sys.redis, job.jobId) <==> !(verdict.Transient? && 1 < job.maxAttempts))
            && SplitLeads(steps + [finalise] + [WriteClaim(job.jobId, w2)], z)
            && !Inv(z.sys) && Reopened(y.sys.redis, z.sys.redis, job.jobId)
  {
    var id, c := job.jobId, Claim(0, job, 1, w1);
    var x: Split;
    steps, x := HeldAndTakenOver(job, w1, w2);
    var finalise := Atomic(Finalising(c, verdict, now, due));
    y := SplitNext(x, finalise);
    SplitOn(steps, x, finalise);
    FinaliseInsideWindow(x, id, w2, c, verdict, now, due);
    z := SplitNext(y, WriteClaim(id, w2));
    SplitOn(steps + [finalise], y, WriteClaim(id, w2));
    FinaliseEnds(x.sys.redis, c, verdict, now, due);
  }

  lemma FinaliseEnds(r: Redis, c: Claim, verdict: Verdict, now: real, due: real)
    requires IsCurrent(r, c) && c.job.jobId !in r.results
    ensures IsTerminal(Finalise(r, c, verdict, now, due), c.job.jobId) <==> !(verdict.Transient? && c.attempt < c.job.maxAttempts)
  {
  }

  /** A worker holds the claim with attempt 1; another has taken the entry over and read that attempt. */
  lemma HeldAndTakenOver(job: Job, w1: string, w2: string) returns (steps: seq<SplitStep>, x: Split)
    requires job.maxAttempts >= 1 && w1 != w2
    ensures SplitLeads(steps, x) && Inv(x.sys) && WindowsOk(x)
    ensures Claim(0, job, 1, w1) in x.sys.claims && IsCurrent(x.sys.redis, Claim(0, job, 1, w1)) && x.sys.redis.results == map[]
    ensures SplitEnabled(x, WriteClaim(job.jobId, w2)) && OnRecord(x, WriteClaim(job.jobId, w2))
  {
    var id := job.jobId;
    var x0: Split;
    steps, x0 := OneReader(job, w1);
    assert Sound(x0, WriteClaim(id, w1));
    var x1 := SplitNext(x0, WriteClaim(id, w1));
    SoundOn(steps, x0, WriteClaim(id, w1));
    var x2 := SplitNext(x1, TakeOver(0, w2));
    SoundOn(steps + [WriteClaim(id, w1)], x1, TakeOver(0, w2));
    x := SplitNext(x2, ReadAttempt(id, w2));
    SoundOn(steps + [WriteClaim(id, w1)] + [TakeOver(0, w2)], x2, ReadAttempt(id, w2));
    steps := steps + [WriteClaim(id, w1)] + [TakeOver(0, w2)] + [ReadAttempt(id, w2)];
    SplitRefines(steps);
  }
}
