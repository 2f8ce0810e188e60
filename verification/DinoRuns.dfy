/**
 Frame runs of the deep-feature matcher: maximal stretches of accepted candidate frames whose best
 target frames move forward by at most maxStep, and the choice of the best one.
 */
module DinoRuns {
  import opened Wrappers
  import opened Numbers

  /** A candidate frame with its best target frame; the source keeps these as parallel arrays. */
  datatype Frame = Frame(accepted: bool, target: int, cosine: real, l2Score: real, margin: real)

  datatype Run = Run(
    start: nat,
    end: nat,
    startTarget: int,
    endTarget: int,
    length: nat,
    avgCosine: real,
    avgL2Score: real,
    avgMargin: real,
    consistency: real)

  /** Frame j + 1 continues the run of frame j. */
  predicate Linked(frames: seq<Frame>, maxStep: int, j: int) {
    && 0 <= j < |frames| - 1
    && frames[j].accepted && frames[j + 1].accepted
    && 0 <= frames[j + 1].target - frames[j].target <= maxStep
  }

  /** Frames a to b are accepted and each continues the one before. */
  predicate Chain(frames: seq<Frame>, maxStep: int, a: nat, b: int) {
    && a <= b < |frames| && frames[a].accepted
    && forall j :: a <= j < b ==> Linked(frames, maxStep, j)
  }

  /** A chain that no frame on either side could join. */
  predicate Maximal(frames: seq<Frame>, maxStep: int, a: nat, b: int) {
    Chain(frames, maxStep, a, b) && !Linked(frames, maxStep, a - 1) && !Linked(frames, maxStep, b)
  }

  // ---------------------------------------------------------------------------
  // Building runs
  // ---------------------------------------------------------------------------

  predicate InRange(frames: seq<Frame>, indices: seq<nat>) {
    forall k :: 0 <= k < |indices| ==> indices[k] < |frames|
  }

  /** 1 for each step between listed frames that lies in [0, maxStep], 0 for the others. */
  function ValidSteps(frames: seq<Frame>, maxStep: int, indices: seq<nat>): (steps: seq<real>)
    requires indices != [] && InRange(frames, indices)
    ensures |steps| == |indices| - 1
  {
    seq(|indices| - 1, k requires 0 <= k < |indices| - 1 =>
      if 0 <= frames[indices[k + 1]].target - frames[indices[k]].target <= maxStep then 1.0 else 0.0)
  }

  function Consistency(frames: seq<Frame>, maxStep: int, indices: seq<nat>): real
    requires indices != [] && InRange(frames, indices)
  {
    if |indices| <= 1 then 1.0 else Mean(ValidSteps(frames, maxStep, indices))
  }

  function Cosines(frames: seq<Frame>, indices: seq<nat>): (values: seq<real>)
    requires InRange(frames, indices)
    ensures |values| == |indices| && forall k :: 0 <= k < |values| ==> values[k] == frames[indices[k]].cosine
  {
    seq(|indices|, k requires 0 <= k < |indices| => frames[indices[k]].cosine)
  }

  function L2Scores(frames: seq<Frame>, indices: seq<nat>): (values: seq<real>)
    requires InRange(frames, indices)
    ensures |values| == |indices| && forall k :: 0 <= k < |values| ==> values[k] == frames[indices[k]].l2Score
  {
    seq(|indices|, k requires 0 <= k < |indices| => frames[indices[k]].l2Score)
  }

  function Margins(frames: seq<Frame>, indices: seq<nat>): (values: seq<real>)
    requires InRange(frames, indices)
    ensures |values| == |indices| && forall k :: 0 <= k < |values| ==> values[k] == frames[indices[k]].margin
  {
    seq(|indices|, k requires 0 <= k < |indices| => frames[indices[k]].margin)
  }

  function Summary(frames: seq<Frame>, maxStep: int, indices: seq<nat>): Run
    requires indices != [] && InRange(frames, indices)
  {
    var n := |indices|;
    Run(indices[0], indices[n - 1], frames[indices[0]].target, frames[indices[n - 1]].target, n,
        Mean(Cosines(frames, indices)), Mean(L2Scores(frames, indices)), Mean(Margins(frames, indices)),
        Consistency(frames, maxStep, indices))
  }

  function Range(a: nat, b: nat): seq<nat>
    requires a <= b
  {
    seq(b - a, k requires 0 <= k < b - a => a + k)
  }

  /** The summary of a maximal chain. */
  predicate IsRunOf(frames: seq<Frame>, maxStep: int, r: Run) {
    Maximal(frames, maxStep, r.start, r.end) && r == Summary(frames, maxStep, Range(r.start, r.end + 1))
  }

  predicate Ordered(runs: seq<Run>) {
    forall i, j :: 0 <= i < j < |runs| ==> runs[i].end < runs[j].start
  }

  /** The runs found among the frames before `upTo` that end before `open`. */
  ghost predicate Found(frames: seq<Frame>, maxStep: int, runs: seq<Run>, open: nat) {
    && Ordered(runs)
    && (forall i :: 0 <= i < |runs| ==> runs[i].end < open && IsRunOf(frames, maxStep, runs[i]))
    && forall a, b | Maximal(frames, maxStep, a, b) && b < open :: Listed(runs, a, b)
  }

  ghost predicate Listed(runs: seq<Run>, a: nat, b: int) {
    exists i :: 0 <= i < |runs| && runs[i].start == a && runs[i].end == b
  }

  /** A maximal chain that reaches into another is that one. */
  lemma OneChain(frames: seq<Frame>, maxStep: int, a: nat, b: nat, c: nat, d: int)
    requires Maximal(frames, maxStep, a, b) && Maximal(frames, maxStep, c, d) && a <= d <= b
    ensures a == c && b == d
  {
    assert d < b ==> Linked(frames, maxStep, d);
    assert c < a ==> Linked(frames, maxStep, a - 1);
    assert a < c <= b ==> Linked(frames, maxStep, c - 1);
  }

  lemma FlushKeeps(frames: seq<Frame>, maxStep: int, runs: seq<Run>, a: nat, b: nat)
    requires Found(frames, maxStep, runs, a) && Maximal(frames, maxStep, a, b)
    ensures Found(frames, maxStep, runs + [Summary(frames, maxStep, Range(a, b + 1))], b + 1)
  {
    var r := Summary(frames, maxStep, Range(a, b + 1));
    var after := runs + [r];
    assert after[|runs|] == r;
    forall c: nat, d: int | Maximal(frames, maxStep, c, d) && d < b + 1 ensures Listed(after, c, d) {
      if d < a {
        assert Listed(runs, c, d);
        var i :| 0 <= i < |runs| && runs[i].start == c && runs[i].end == d;
        assert after[i] == runs[i];
      } else {
        OneChain(frames, maxStep, a, b, c, d);
      }
    }
  }

  lemma FoundNone(frames: seq<Frame>, maxStep: int)
    ensures Found(frames, maxStep, [], 0)
  {
  }

  /** A frame that was not accepted ends no run. */
  lemma SkipKeeps(frames: seq<Frame>, maxStep: int, runs: seq<Run>, i: nat)
    requires Found(frames, maxStep, runs, i) && i < |frames| && !frames[i].accepted
    ensures Found(frames, maxStep, runs, i + 1)
  {
    forall c: nat, d: int | Maximal(frames, maxStep, c, d) && d < i + 1 ensures Listed(runs, c, d) {
      assert c < d ==> Linked(frames, maxStep, d - 1);
    }
  }

  /** The runs are exactly the maximal chains, in order, each summarised over all its frames. */
  method BuildRuns(frames: seq<Frame>, maxStep: int) returns (runs: seq<Run>)
    ensures Found(frames, maxStep, runs, |frames|)
  {
    hide Found, Summary;
    runs := [];
    FoundNone(frames, maxStep);
    var current: seq<nat> := [];
    var i := 0;
    while i < |frames|
      invariant 0 <= i <= |frames|
      invariant current == [] ==> Found(frames, maxStep, runs, i) && !Linked(frames, maxStep, i - 1)
      invariant current != [] ==>
                  && |current| <= i
                  && var a: nat := i - |current|;
                     && current == Range(a, i) && Found(frames, maxStep, runs, a)
                     && Chain(frames, maxStep, a, i - 1) && !Linked(frames, maxStep, a - 1)
    {
      ghost var a: nat := i - |current|;
      if !frames[i].accepted {
        if current != [] {
          FlushKeeps(frames, maxStep, runs, a, i - 1);
          runs := runs + [Summary(frames, maxStep, current)];
        }
        SkipKeeps(frames, maxStep, runs, i);
        current := [];
      } else if current == [] {
        current := [i];
        assert current == Range(i, i + 1);
      } else {
        var previous := current[|current| - 1];
        assert previous == i - 1;
        assert a < i - 1 ==> Linked(frames, maxStep, i - 2);
        var step := frames[i].target - frames[previous].target;
        if 0 <= step <= maxStep {
          assert Linked(frames, maxStep, i - 1);
          current := current + [i];
          assert current == Range(a, i + 1);
        } else {
          FlushKeeps(frames, maxStep, runs, a, i - 1);
          runs := runs + [Summary(frames, maxStep, current)];
          current := [i];
          assert current == Range(i, i + 1);
        }
      }
      i := i + 1;
    }
    if current != [] {
      FlushKeeps(frames, maxStep, runs, i - |current|, i - 1);
      runs := runs + [Summary(frames, maxStep, current)];
    }
  }

  // ---------------------------------------------------------------------------
  // What the runs are
  // ---------------------------------------------------------------------------

  lemma ChainSteps(frames: seq<Frame>, maxStep: int, a: nat, b: nat)
    requires Chain(frames, maxStep, a, b)
    ensures AllOnes(ValidSteps(frames, maxStep, Range(a, b + 1)))
  {
    var steps := ValidSteps(frames, maxStep, Range(a, b + 1));
    forall k | 0 <= k < |steps| ensures steps[k] == 1.0 {
      assert Linked(frames, maxStep, a + k);
    }
  }

  lemma ConsistentChain(frames: seq<Frame>, maxStep: int, a: nat, b: nat)
    requires Chain(frames, maxStep, a, b)
    ensures Consistency(frames, maxStep, Range(a, b + 1)) == 1.0
  {
    if a < b {
      ChainSteps(frames, maxStep, a, b);
      var steps := ValidSteps(frames, maxStep, Range(a, b + 1));
      hide ValidSteps;
      SumOfOnes(steps);
      MeanOfOnes(steps);
    }
  }

  /** Every run is fully consistent, so that score never tells two runs apart. */
  lemma ConsistencyIsOne(frames: seq<Frame>, maxStep: int, r: Run)
    requires IsRunOf(frames, maxStep, r)
    ensures r.consistency == 1.0 && r.length == r.end - r.start + 1
  {
    hide Mean, Consistency;
    ConsistentChain(frames, maxStep, r.start, r.end);
  }

  /** The frames of a run are accepted and move forward by at most maxStep; the frames next to it do not
      continue it. */
  lemma RunSteps(frames: seq<Frame>, maxStep: int, r: Run, j: nat)
    requires IsRunOf(frames, maxStep, r) && r.start <= j <= r.end
    ensures r.end < |frames| && frames[j].accepted
    ensures j < r.end ==> 0 <= frames[j + 1].target - frames[j].target <= maxStep
    ensures r.start > 0 && frames[r.start - 1].accepted ==> !(0 <= frames[r.start].target - frames[r.start - 1].target <= maxStep)
    ensures r.end + 1 < |frames| && frames[r.end + 1].accepted ==> !(0 <= frames[r.end + 1].target - frames[r.end].target <= maxStep)
  {
    assert j < r.end ==> Linked(frames, maxStep, j);
    assert r.start < j ==> Linked(frames, maxStep, j - 1);
    assert r.start < r.end ==> Linked(frames, maxStep, r.end - 1);
    hide Summary;
  }

  lemma {:induction false} ChainStart(frames: seq<Frame>, maxStep: int, j: nat) returns (a: nat)
    requires j < |frames| && frames[j].accepted
    ensures Chain(frames, maxStep, a, j) && !Linked(frames, maxStep, a - 1)
  {
    if Linked(frames, maxStep, j - 1) {
      a := ChainStart(frames, maxStep, j - 1);
    } else {
      a := j;
    }
  }

  lemma {:induction false} ChainEnd(frames: seq<Frame>, maxStep: int, j: nat) returns (b: nat)
    requires j < |frames| && frames[j].accepted
    ensures Chain(frames, maxStep, j, b) && !Linked(frames, maxStep, b)
    decreases |frames| - j
  {
    if Linked(frames, maxStep, j) {
      b := ChainEnd(frames, maxStep, j + 1);
      assert forall k :: j <= k < b ==> Linked(frames, maxStep, k);
    } else {
      b := j;
    }
  }

  /** Every accepted frame, and no other, lies in a run. */
  lemma AcceptedInRun(frames: seq<Frame>, maxStep: int, runs: seq<Run>, j: nat)
    requires Found(frames, maxStep, runs, |frames|) && j < |frames|
    ensures frames[j].accepted <==> exists i :: 0 <= i < |runs| && runs[i].start <= j <= runs[i].end
  {
    hide Summary;
    if frames[j].accepted {
      var a := ChainStart(frames, maxStep, j);
      var b := ChainEnd(frames, maxStep, j);
      assert Maximal(frames, maxStep, a, b);
      assert Listed(runs, a, b);
    }
    if i :| 0 <= i < |runs| && runs[i].start <= j <= runs[i].end {
      assert IsRunOf(frames, maxStep, runs[i]);
      assert j > runs[i].start ==> Linked(frames, maxStep, j - 1);
    }
  }

  /** And in one run only. */
  lemma InOneRun(frames: seq<Frame>, maxStep: int, runs: seq<Run>, j: int, i: nat, k: nat)
    requires Found(frames, maxStep, runs, |frames|) && i < |runs| && k < |runs|
    requires runs[i].start <= j <= runs[i].end && runs[k].start <= j <= runs[k].end
    ensures i == k
  {
    hide IsRunOf;
  }

  /** A chain anywhere fits into one of the runs, so none is longer than the longest run. */
  lemma ChainFits(frames: seq<Frame>, maxStep: int, runs: seq<Run>, a: nat, b: nat)
    requires Found(frames, maxStep, runs, |frames|) && Chain(frames, maxStep, a, b)
    ensures exists i :: 0 <= i < |runs| && runs[i].start <= a && b <= runs[i].end && b - a + 1 <= runs[i].length
  {
    assert b > a ==> Linked(frames, maxStep, b - 1);
    var c := ChainStart(frames, maxStep, a);
    var d := ChainEnd(frames, maxStep, b);
    assert Maximal(frames, maxStep, c, d);
    assert Listed(runs, c, d);
    var i :| 0 <= i < |runs| && runs[i].start == c && runs[i].end == d;
    ConsistencyIsOne(frames, maxStep, runs[i]);
  }

  // ---------------------------------------------------------------------------
  // Choosing a run
  // ---------------------------------------------------------------------------

  /** The order of the sort key: length, then cosine, then consistency. */
  predicate Above(x: Run, y: Run) {
    || x.length > y.length
    || (x.length == y.length && x.avgCosine > y.avgCosine)
    || (x.length == y.length && x.avgCosine == y.avgCosine && x.consistency > y.consistency)
  }

  /** The first run that no other is above. */
  function BestRun(runs: seq<Run>): (k: nat)
    requires runs != []
    ensures k < |runs|
    ensures forall i :: 0 <= i < |runs| ==> !Above(runs[i], runs[k])
    ensures forall i :: 0 <= i < k ==> Above(runs[k], runs[i])
  {
    if |runs| == 1 then 0
    else
      var n := |runs| - 1;
      var k := BestRun(runs[..n]);
      assert forall i :: 0 <= i < n ==> runs[..n][i] == runs[i];
      if Above(runs[n], runs[k]) then n else k
  }

  function Coverage(best: Run, totalFrames: nat): real {
    best.length as real / (if totalFrames < 1 then 1 else totalFrames) as real
  }

  /** Score and best run. */
  function ScoreRuns(runs: seq<Run>, totalFrames: nat, acceptedRatio: real, globalAvgCosine: real): (real, Option<Run>) {
    if runs == [] then (Clip01(0.60 * acceptedRatio + 0.40 * globalAvgCosine), None)
    else
      var best := runs[BestRun(runs)];
      (Clip01(0.45 * best.avgCosine + 0.20 * best.avgL2Score + 0.10 * best.avgMargin
              + 0.15 * Coverage(best, totalFrames) + 0.10 * best.consistency),
       Some(best))
  }

  /** What a run says of its frames: the targets at its ends and three averages over all of them. */
  lemma RunOfFrames(frames: seq<Frame>, maxStep: int, r: Run, cosines: seq<real>, l2Scores: seq<real>, margins: seq<real>)
    requires IsRunOf(frames, maxStep, r)
    requires |cosines| == |l2Scores| == |margins| == r.end - r.start + 1
    requires forall k :: 0 <= k < |cosines| ==>
               var f := frames[r.start + k]; cosines[k] == f.cosine && l2Scores[k] == f.l2Score && margins[k] == f.margin
    ensures r.length == r.end - r.start + 1 && r.startTarget == frames[r.start].target && r.endTarget == frames[r.end].target
    ensures r.avgCosine == Mean(cosines) && r.avgL2Score == Mean(l2Scores) && r.avgMargin == Mean(margins)
  {
    var indices := Range(r.start, r.end + 1);
    assert InRange(frames, indices) && |indices| == |cosines|;
    assert r == Summary(frames, maxStep, indices);
    assert indices[0] == r.start && indices[|indices| - 1] == r.end;
    forall k | 0 <= k < |indices| ensures indices[k] == r.start + k {}
    hide IsRunOf, Range, Consistency;
    SameNumbers(frames, indices, cosines, l2Scores, margins);
  }

  lemma SameNumbers(frames: seq<Frame>, indices: seq<nat>, cosines: seq<real>, l2Scores: seq<real>, margins: seq<real>)
    requires InRange(frames, indices) && |cosines| == |l2Scores| == |margins| == |indices|
    requires forall k :: 0 <= k < |cosines| ==>
               var f := frames[indices[k]]; cosines[k] == f.cosine && l2Scores[k] == f.l2Score && margins[k] == f.margin
    ensures cosines == Cosines(frames, indices) && l2Scores == L2Scores(frames, indices) && margins == Margins(frames, indices)
  {
  }

  /** The longest, of these the best in cosine, and of these the first. */
  predicate FirstOfBest(runs: seq<Run>, k: nat) {
    && k < |runs|
    && (forall i :: 0 <= i < |runs| ==>
          runs[k].length > runs[i].length || (runs[k].length == runs[i].length && runs[k].avgCosine >= runs[i].avgCosine))
    && (forall i :: 0 <= i < k && runs[k].length == runs[i].length ==> runs[k].avgCosine > runs[i].avgCosine)
  }

  /** The score: of that run, in its own numbers and its share of the frames; without a run, of the
      frames at large. */
  lemma ScoreOfBest(frames: seq<Frame>, maxStep: int, runs: seq<Run>, k: nat, ratio: real, cosine: real)
    requires Found(frames, maxStep, runs, |frames|)
    ensures runs == [] ==> ScoreRuns(runs, |frames|, ratio, cosine) == (Clip01(0.60 * ratio + 0.40 * cosine), None)
    ensures FirstOfBest(runs, k) ==>
              && |frames| > 0
              && ScoreRuns(runs, |frames|, ratio, cosine) ==
                 (Clip01(0.45 * runs[k].avgCosine + 0.20 * runs[k].avgL2Score + 0.10 * runs[k].avgMargin
                         + 0.15 * (runs[k].length as real / |frames| as real) + 0.10), Some(runs[k]))
    ensures runs != [] ==> FirstOfBest(runs, BestRun(runs))
  {
    hide Clip01, Summary, Maximal;
    if runs != [] {
      forall i | 0 <= i < |runs| ensures runs[i].consistency == 1.0 && runs[i].end < |frames| {
        assert IsRunOf(frames, maxStep, runs[i]);
        ConsistencyIsOne(frames, maxStep, runs[i]);
      }
      hide *;
      BestIsFirst(runs, k);
      BestScore(runs, BestRun(runs), |frames|, ratio, cosine);
    }
  }

  lemma BestIsFirst(runs: seq<Run>, k: nat)
    requires runs != [] && forall i :: 0 <= i < |runs| ==> runs[i].consistency == 1.0
    ensures FirstOfBest(runs, k) <==> k == BestRun(runs)
  {
    var b := BestRun(runs);
    assert forall i :: 0 <= i < |runs| ==> !Above(runs[i], runs[b]);
    assert forall i :: 0 <= i < b ==> Above(runs[b], runs[i]);
    hide BestRun;
  }

  lemma BestScore(runs: seq<Run>, k: nat, total: nat, ratio: real, cosine: real)
    requires runs != [] && k == BestRun(runs) && runs[k].consistency == 1.0 && total > 0
    ensures ScoreRuns(runs, total, ratio, cosine) ==
            (Clip01(0.45 * runs[k].avgCosine + 0.20 * runs[k].avgL2Score + 0.10 * runs[k].avgMargin
                    + 0.15 * (runs[k].length as real / total as real) + 0.10), Some(runs[k]))
  {
  }

  /** The final test on the best run. */
  predicate Qualifies(best: Option<Run>, minFrames: int, minCosine: real) {
    best.Some? && best.value.length >= minFrames && best.value.avgCosine >= minCosine
  }

  /** The test passes exactly when some run of the greatest length passes it. */
  lemma QualifiesExactly(runs: seq<Run>, totalFrames: nat, ratio: real, cosine: real, minFrames: int, minCosine: real)
    ensures Qualifies(ScoreRuns(runs, totalFrames, ratio, cosine).1, minFrames, minCosine) <==>
            exists k :: 0 <= k < |runs| && (forall i :: 0 <= i < |runs| ==> runs[i].length <= runs[k].length)
                        && runs[k].length >= minFrames && runs[k].avgCosine >= minCosine
  {
    hide Clip01, Coverage;
    if runs != [] {
      var best := BestRun(runs);
      assert forall i :: 0 <= i < |runs| ==> !Above(runs[i], runs[best]);
    }
  }

  /** The thresholds of the configuration. */
  datatype Thresholds = Thresholds(cosine: real, l2Score: real, margin: real)

  /** The frame that a row of similarities (one per target frame, two at least) gives: the first best
      target, its similarity, the lead over the second best, and the score of the distance between
      unit vectors of that similarity. */
  predicate FromRow(f: Frame, row: seq<real>, second: nat, distance: real, limits: Thresholds) {
    && 0 <= f.target < |row| && second < |row| && second != f.target
    && f.cosine == row[f.target] && f.margin == f.cosine - row[second]
    && (forall j :: 0 <= j < |row| ==> row[j] <= f.cosine && (j < f.target ==> row[j] < f.cosine))
    && (forall j :: 0 <= j < |row| && j != f.target ==> row[j] <= row[second])
    && distance >= 0.0 && distance * distance == (if f.cosine > 1.0 then 0.0 else 2.0 - 2.0 * f.cosine)
    && f.l2Score * (1.0 + distance) == 1.0
    && f.accepted == (f.cosine >= limits.cosine && f.l2Score >= limits.l2Score && f.margin >= limits.margin)
  }

  /** A shorter run that would pass is overlooked when a longer one does not: three candidate frames,
      the first the same as target frame 5, the others half like target frame 0. */
  lemma LongerRunHidesAGoodOne()
    ensures var good, bad := Frame(true, 5, 1.0, 1.0, 1.0), Frame(true, 0, 0.5, 0.5, 0.25);
            var frames, limits := [good, bad, bad], Thresholds(0.4, 0.4, 0.2);
            var x, y := Summary(frames, 3, Range(0, 1)), Summary(frames, 3, Range(1, 3));
            && FromRow(good, [0.0, 0.0, 0.0, 0.0, 0.0, 1.0], 0, 0.0, limits)
            && FromRow(bad, [0.5, 0.25, 0.0, 0.0, 0.0, 0.0], 1, 1.0, limits)
            && Found(frames, 3, [x, y], 3)
            && Qualifies(Some(x), 1, 0.9)
            && !Qualifies(ScoreRuns([x, y], 3, 1.0, 2.0 / 3.0).1, 1, 0.9)
  {
    var good, bad := Frame(true, 5, 1.0, 1.0, 1.0), Frame(true, 0, 0.5, 0.5, 0.25);
    var frames := [good, bad, bad];
    var x, y := Summary(frames, 3, Range(0, 1)), Summary(frames, 3, Range(1, 3));
    OneCosine(frames, 0, 1.0);
    TwoCosines(frames, 0.5);
    TwoRuns(frames);
    assert x.length == 1 && y.length == 2;
    hide *;
    BothFromRows(good, bad, Thresholds(0.4, 0.4, 0.2));
    LongerWins(x, y);
  }

  lemma BothFromRows(good: Frame, bad: Frame, limits: Thresholds)
    requires good == Frame(true, 5, 1.0, 1.0, 1.0) && bad == Frame(true, 0, 0.5, 0.5, 0.25)
    requires limits == Thresholds(0.4, 0.4, 0.2)
    ensures FromRow(good, [0.0, 0.0, 0.0, 0.0, 0.0, 1.0], 0, 0.0, limits)
    ensures FromRow(bad, [0.5, 0.25, 0.0, 0.0, 0.0, 0.0], 1, 1.0, limits)
  {
  }

  lemma LongerWins(x: Run, y: Run)
    requires x.length == 1 && x.avgCosine == 1.0 && y.length == 2 && y.avgCosine == 0.5
    ensures Qualifies(Some(x), 1, 0.9) && !Qualifies(ScoreRuns([x, y], 3, 1.0, 2.0 / 3.0).1, 1, 0.9)
  {
    hide Clip01, Coverage;
    assert Above(y, x);
    assert [x, y][1] == y;
  }

  lemma TwoRuns(frames: seq<Frame>)
    requires |frames| == 3 && (forall j :: 0 <= j < 3 ==> frames[j].accepted)
    requires frames[0].target == 5 && frames[1].target == 0 && frames[2].target == 0
    ensures Found(frames, 3, [Summary(frames, 3, Range(0, 1)), Summary(frames, 3, Range(1, 3))], 3)
  {
    var x, y := Summary(frames, 3, Range(0, 1)), Summary(frames, 3, Range(1, 3));
    TwoChains(frames);
    FoundNone(frames, 3);
    hide *;
    assert [] + [x] == [x] && [x] + [y] == [x, y];
    FlushKeeps(frames, 3, [], 0, 0);
    assert Found(frames, 3, [x], 1);
    FlushKeeps(frames, 3, [x], 1, 2);
  }

  lemma TwoChains(frames: seq<Frame>)
    requires |frames| == 3 && (forall j :: 0 <= j < 3 ==> frames[j].accepted)
    requires frames[0].target == 5 && frames[1].target == 0 && frames[2].target == 0
    ensures Maximal(frames, 3, 0, 0) && Maximal(frames, 3, 1, 2)
  {
    assert !Linked(frames, 3, 0) && Linked(frames, 3, 1);
  }

  lemma OneCosine(frames: seq<Frame>, a: nat, cosine: real)
    requires a < |frames| && frames[a].cosine == cosine
    ensures Summary(frames, 3, Range(a, a + 1)).avgCosine == cosine
  {
    var values := Cosines(frames, Range(a, a + 1));
    assert values == [cosine];
    assert values[..0] == [] && Sum(values) == cosine;
  }

  lemma TwoCosines(frames: seq<Frame>, cosine: real)
    requires |frames| == 3 && frames[1].cosine == cosine && frames[2].cosine == cosine
    ensures Summary(frames, 3, Range(1, 3)).avgCosine == cosine
  {
    var values := Cosines(frames, Range(1, 3));
    assert values == [cosine, cosine];
    assert values[..1] == [cosine] && values[..1][..0] == [];
    assert Sum(values[..1]) == cosine;
    assert Sum(values) == cosine + cosine;
  }
}
