/**
 What the temporal matcher's result means: which inputs it refuses, that the reported run is a
 longest one of true hits, how large it can be, and that an exact excerpt is found whole.
 */
module MatcherTheorems {
  import opened Wrappers
  import opened Matcher
  import opened Numbers

  // ---------------------------------------------------------------------------
  // What the result means
  // ---------------------------------------------------------------------------

  predicate WellFormed(segments: seq<Segment>) {
    && Increasing(segments)
    && forall i :: 0 <= i < |segments| ==> segments[i].dimension == segments[0].dimension
  }

  /** Validation lets through exactly the lists of one dimension with increasing indices. */
  lemma {:induction false} ValidateFinds(segments: seq<Segment>, side: Side)
    ensures Validate(segments, side).None? <==> WellFormed(segments)
  {
    if segments != [] {
      var n := |segments| - 1;
      ValidateFinds(segments[..n], side);
      if Validate(segments[..n], side).None? && n > 0 && segments[n].index > segments[n - 1].index {
        forall i, j | 0 <= i < j < |segments| ensures segments[i].index < segments[j].index {
          if j == n && i < n - 1 {
            assert segments[..n][i].index < segments[..n][n - 1].index;
          }
        }
      }
      if WellFormed(segments) {
        assert WellFormed(segments[..n]);
      }
    }
  }

  /** The problem reported is that of the first segment that spoils the list, its dimension before its index. */
  lemma FirstProblem(segments: seq<Segment>, side: Side, k: nat)
    requires k < |segments| && WellFormed(segments[..k]) && !WellFormed(segments[..k + 1])
    ensures k > 0 && Validate(segments, side) ==
                     Some(if segments[k].dimension != segments[0].dimension then InconsistentDimension(side, segments[k].index)
                          else NotIncreasing(side, segments[k].index, segments[k - 1].index))
  {
    ValidateFinds(segments[..k], side);
    ValidateFinds(segments[..k + 1], side);
    assert segments[..k + 1][..k] == segments[..k];
    ValidateStops(segments, side, k + 1);
  }

  /** The input gets as far as the hits, and there are some. */
  predicate HasHits(targets: seq<Segment>, candidates: seq<Segment>, config: Config, coarse: Option<real>, sim: seq<seq<real>>)
    requires IsMatrix(sim, |candidates|, |targets|)
  {
    && targets != [] && candidates != []
    && WellFormed(targets) && WellFormed(candidates) && targets[0].dimension == candidates[0].dimension
    && (coarse.Some? ==> coarse.value >= config.coarseThreshold)
    && Hits(sim, candidates, targets, config.threshold) != []
  }

  lemma {:induction false} SomethingConsistent(hits: seq<Hit>, config: Config)
    requires hits != []
    ensures Ordered(hits, config) != [] <==> config.tolerance >= 0
  {
    var d := DominantOffset(hits, |hits|);
    var consistent := Consistent(hits, d, config.tolerance);
    SelectedAre(consistent);
    if config.tolerance >= 0 {
      DominantIsMostFrequent(hits, |hits|);
      var i :| 0 <= i < |hits| && Offset(hits[i]) == d;
      ConsistentAre(hits, d, config.tolerance, hits[i]);
      var k :| 0 <= k < |consistent| && consistent[k] == hits[i];
      var b := SomeBest(consistent, k);
      assert consistent[b] in Ordered(hits, config);
    } else if Ordered(hits, config) != [] {
      OrderedAreConsistentHits(hits, config, Ordered(hits, config)[0]);
    }
  }

  /** With hits and a tolerance that is not negative, no stage comes out empty and a run is reported. */
  lemma NoStageIsEmpty(targets: seq<Segment>, candidates: seq<Segment>, config: Config, coarse: Option<real>, sim: seq<seq<real>>)
    requires IsMatrix(sim, |candidates|, |targets|)
    requires HasHits(targets, candidates, config, coarse, sim)
    ensures var hits := Hits(sim, candidates, targets, config.threshold);
            var runs := RunsFound(hits, config);
            if config.tolerance < 0 then Match(targets, candidates, config, coarse, sim) == Err(NoRuns)
            else && Consistent(hits, DominantOffset(hits, |hits|), config.tolerance) != []
                 && Ordered(hits, config) != []
                 && runs != []
                 && InSegments(Longest(runs), targets, candidates)
                 && Match(targets, candidates, config, coarse, sim)
                    == Ok(RunReport(Longest(runs), targets, candidates, config, coarse))
  {
    hide RunReport, DominantOffset, Hits, Near, Longest;
    ValidateFinds(targets, Target);
    ValidateFinds(candidates, Candidate);
    hide Validate;
    FoundInSegments(targets, candidates, config, sim);
    SomethingConsistent(Hits(sim, candidates, targets, config.threshold), config);
  }

  /** The other inputs: malformed ones are refused, the rest give the empty report. */
  lemma OtherwiseEmptyOrRefused(targets: seq<Segment>, candidates: seq<Segment>, config: Config, coarse: Option<real>, sim: seq<seq<real>>)
    requires IsMatrix(sim, |candidates|, |targets|)
    requires !HasHits(targets, candidates, config, coarse, sim)
    ensures var r := Match(targets, candidates, config, coarse, sim);
            && (r.Err? <==> targets != [] && candidates != []
                            && !(WellFormed(targets) && WellFormed(candidates) && targets[0].dimension == candidates[0].dimension))
            && (r.Ok? ==> r.value == Report(false, 0.0, 0.0, None, 0, |targets|, |candidates|, None, None,
                                            if targets == [] || candidates == [] then None else coarse, []))
            && (r.Err? ==>
                  if !WellFormed(targets) then Validate(targets, Target) == Some(r.error)
                  else if !WellFormed(candidates) then Validate(candidates, Candidate) == Some(r.error)
                  else r.error == DimensionMismatch(targets[0].dimension, candidates[0].dimension))
  {
    hide RunReport, RunsFound, Hits;
    ValidateFinds(targets, Target);
    ValidateFinds(candidates, Candidate);
  }

  /**
   The reported pairs: a longest stretch of the candidate-ordered list of best hits, each a true
   hit within tolerance of an offset that no other beats.
   */
  lemma RunExtraction(targets: seq<Segment>, candidates: seq<Segment>, config: Config, coarse: Option<real>, sim: seq<seq<real>>, r: Report)
    requires IsMatrix(sim, |candidates|, |targets|)
    requires HasHits(targets, candidates, config, coarse, sim) && config.tolerance >= 0
    requires Match(targets, candidates, config, coarse, sim) == Ok(r)
    ensures Extracted(r.pairs, Hits(sim, candidates, targets, config.threshold), config)
  {
    ReportIs(targets, candidates, config, coarse, sim, r);
  }

  ghost predicate Extracted(pairs: seq<Hit>, hits: seq<Hit>, config: Config)
    requires hits != []
  {
    var d := DominantOffset(hits, |hits|);
    var ordered := Ordered(hits, config);
    && pairs != [] && ByCandidate(pairs) && Chained(pairs, config.maxGap)
    && (forall h :: h in pairs ==> h in hits && Near(h, d, config.tolerance))
    && (forall offset :: OffsetCount(hits, offset) <= OffsetCount(hits, d))
    && IsStretchOf(pairs, ordered)
    && forall i, j | 0 <= i < j <= |ordered| :: Stretch(ordered, i, j, config.maxGap) ==> j - i <= |pairs|
  }

  lemma LongestIsExtracted(hits: seq<Hit>, config: Config)
    requires hits != [] && RunsFound(hits, config) != []
    ensures Extracted(Longest(RunsFound(hits, config)), hits, config)
  {
    var ordered := Ordered(hits, config);
    var pairs := Longest(RunsFound(hits, config));
    hide Selected, Consistent, Longest, Linked, Near, DominantOffset, OffsetCount, StartsAt;
    LongestIsStretch(hits, config);
    forall h | h in pairs ensures h in hits && Near(h, DominantOffset(hits, |hits|), config.tolerance) {
      var k :| 0 <= k < |pairs| && pairs[k] == h;
      assert h in ordered;
      OrderedAreConsistentHits(hits, config, h);
    }
    forall offset ensures OffsetCount(hits, offset) <= OffsetCount(hits, DominantOffset(hits, |hits|)) {
      DominantBeatsAll(hits, offset);
    }
    forall i, j | 0 <= i < j <= |ordered| && Stretch(ordered, i, j, config.maxGap) ensures j - i <= |pairs| {
      NoLongerStretch(ordered, config.maxGap, i, j);
    }
  }

  lemma LongestIsStretch(hits: seq<Hit>, config: Config)
    requires hits != [] && RunsFound(hits, config) != []
    ensures var pairs := Longest(RunsFound(hits, config)); var ordered := Ordered(hits, config);
            && pairs != [] && ByCandidate(pairs) && Chained(pairs, config.maxGap)
            && IsStretchOf(pairs, ordered) && forall h :: h in pairs ==> h in ordered
  {
    hide Selected, Consistent, Longest, Linked, DominantOffset;
    var ordered := Ordered(hits, config);
    var pairs := Longest(RunsFound(hits, config));
    var i := RunInOrdered(hits, config, pairs);
    SelectedByCandidate(Consistent(hits, DominantOffset(hits, |hits|), config.tolerance));
    RunsPartition(ordered, config.maxGap);
  }

  /** A selected hit beats every consistent hit of its candidate, or ties with a later target. */
  lemma SelectedIsBest(targets: seq<Segment>, candidates: seq<Segment>, config: Config, sim: seq<seq<real>>, g: Hit)
    requires IsMatrix(sim, |candidates|, |targets|) && Increasing(targets) && Increasing(candidates)
    requires var hits := Hits(sim, candidates, targets, config.threshold);
             g in hits && Near(g, DominantOffset(hits, |hits|), config.tolerance)
    ensures exists h :: h in Ordered(Hits(sim, candidates, targets, config.threshold), config) && h.c == g.c
                        && (g.s < h.s || (g.s == h.s && h.t <= g.t))
  {
    var hits := Hits(sim, candidates, targets, config.threshold);
    var d := DominantOffset(hits, |hits|);
    var consistent := Consistent(hits, d, config.tolerance);
    HitsAscend(sim, candidates, targets, config.threshold);
    hide Hits, DominantOffset, Near;
    ConsistentAscend(hits, d, config.tolerance);
    ConsistentAre(hits, d, config.tolerance, g);
    SelectedAre(consistent);
    hide Selected, Consistent;
    var k :| 0 <= k < |consistent| && consistent[k] == g;
    var b := SomeBest(consistent, k);
    assert HasBest(consistent, consistent[b]);
    assert b == k || Before(consistent[if b < k then b else k], consistent[if b < k then k else b]);
  }

  // ---------------------------------------------------------------------------
  // Bounds
  // ---------------------------------------------------------------------------

  /** The candidate indices of a list, each once. */
  ghost function IndexSet(list: seq<Hit>): set<int> {
    set h | h in list :: h.c
  }

  lemma IndexSetOnce(list: seq<Hit>)
    requires ByCandidate(list) && list != []
    ensures IndexSet(list) == IndexSet(list[..|list| - 1]) + {Last(list).c}
    ensures Last(list).c !in IndexSet(list[..|list| - 1])
  {
    var n := |list| - 1;
    assert list == list[..n] + [list[n]];
    forall h | h in list[..n] ensures h.c != list[n].c {
      var i :| 0 <= i < n && list[i] == h;
    }
  }

  lemma {:induction false} IndexSetSize(list: seq<Hit>)
    requires ByCandidate(list)
    ensures |IndexSet(list)| == |list|
  {
    if list != [] {
      IndexSetOnce(list);
      hide IndexSet;
      IndexSetSize(list[..|list| - 1]);
    }
  }

  lemma {:induction false} IntervalSize(s: set<int>, low: int, n: nat)
    requires forall x :: x in s ==> low <= x < low + n
    ensures |s| <= n
  {
    if n == 0 {
      if forall x :: x !in s {
        assert s == {};
      }
    } else {
      IntervalSize(s - {low + n - 1}, low, n - 1);
    }
  }

  /** The segment at k is w or less away from x once shifted. */
  predicate Within(segments: seq<Segment>, k: int, x: int, shift: int, w: int) {
    0 <= k < |segments| && -w <= segments[k].index - x - shift <= w
  }

  /** What n segments can be near to: 2 * tolerance + 1 indices each. */
  function UpTo(n: nat, tolerance: int): int {
    n * (2 * tolerance + 1)
  }

  lemma OneMore(n: nat, tolerance: int)
    ensures UpTo(n + 1, tolerance) == UpTo(n, tolerance) + 2 * tolerance + 1
    ensures UpTo(0, tolerance) == 0
  {
  }

  /** Numbers each within w of one of k centres are at most UpTo(k, w). */
  lemma {:induction false} CoverSize(s: set<int>, segments: seq<Segment>, shift: int, w: nat)
    requires forall x :: x in s ==> exists k :: Within(segments, k, x, shift, w)
    ensures |s| <= UpTo(|segments|, w)
  {
    hide UpTo;
    if segments == [] {
      OneMore(0, w);
      IntervalSize(s, 0, 0);
    } else {
      var n := |segments| - 1;
      var low := segments[n].index - shift - w;
      var there := set x | x in s && low <= x < low + 2 * w + 1;
      IntervalSize(there, low, 2 * w + 1);
      forall x | x in s - there
        ensures exists k :: Within(segments[..n], k, x, shift, w)
      {
        var k :| Within(segments, k, x, shift, w);
        assert Within(segments[..n], k, x, shift, w);
      }
      CoverSize(s - there, segments[..n], shift, w);
      OneMore(n, w);
      assert there <= s;
    }
  }

  lemma {:induction false} SumAtLeast(run: seq<Hit>, threshold: real)
    requires forall i :: 0 <= i < |run| ==> run[i].s >= threshold
    ensures TotalSimilarity(run) >= |run| as real * threshold
  {
    if run != [] {
      var n := |run| - 1;
      SumAtLeast(run[..n], threshold);
      assert |run| as real * threshold == n as real * threshold + threshold;
    }
  }

  lemma MeanAtLeast(run: seq<Hit>, threshold: real)
    requires run != [] && forall i :: 0 <= i < |run| ==> run[i].s >= threshold
    ensures MeanSimilarity(run) >= threshold
  {
    SumAtLeast(run, threshold);
    Quotient(TotalSimilarity(run), |run|, threshold);
  }

  lemma Quotient(sum: real, n: nat, threshold: real)
    requires n > 0 && sum >= n as real * threshold
    ensures sum / n as real >= threshold
  {
    var mean := sum / n as real;
    assert mean * n as real == sum;
    if mean < threshold {
      assert mean * n as real < threshold * n as real;
    }
  }

  /**
   The mean never falls below the threshold, so the decision is on the count alone; the count
   is bounded by both sides, and the spans of any part of the run differ by at most twice the
   tolerance.
   */
  lemma ReportBounds(targets: seq<Segment>, candidates: seq<Segment>, config: Config, coarse: Option<real>, sim: seq<seq<real>>, r: Report)
    requires IsMatrix(sim, |candidates|, |targets|)
    requires HasHits(targets, candidates, config, coarse, sim) && config.tolerance >= 0
    requires Match(targets, candidates, config, coarse, sim) == Ok(r)
    ensures r.count == |r.pairs| > 0
    ensures r.mean.Some? && r.mean.value >= config.threshold
    ensures r.matched <==> r.count >= config.minMatched
    ensures r.count <= |candidates|
    ensures r.count <= UpTo(|targets|, config.tolerance)
    ensures forall i, j :: 0 <= i < j < r.count ==>
              -2 * config.tolerance <= (r.pairs[j].t - r.pairs[i].t) - (r.pairs[j].c - r.pairs[i].c) <= 2 * config.tolerance
  {
    ReportIs(targets, candidates, config, coarse, sim, r);
    hide *;
    ReportFields(r.pairs, targets, candidates, config, coarse);
    CountBounds(r.pairs, targets, candidates, config, sim);
    SpansDiffer(r.pairs, targets, candidates, config, sim);
    MeanBound(r.pairs, targets, candidates, config, sim);
  }

  /** The result is the report of an extracted run. */
  lemma ReportIs(targets: seq<Segment>, candidates: seq<Segment>, config: Config, coarse: Option<real>, sim: seq<seq<real>>, r: Report)
    requires IsMatrix(sim, |candidates|, |targets|)
    requires HasHits(targets, candidates, config, coarse, sim) && config.tolerance >= 0
    requires Match(targets, candidates, config, coarse, sim) == Ok(r)
    ensures Hits(sim, candidates, targets, config.threshold) != []
    ensures r.pairs != [] && InSegments(r.pairs, targets, candidates)
    ensures r == RunReport(r.pairs, targets, candidates, config, coarse)
    ensures Extracted(r.pairs, Hits(sim, candidates, targets, config.threshold), config)
  {
    NoStageIsEmpty(targets, candidates, config, coarse, sim);
    hide Match;
    LongestIsExtracted(Hits(sim, candidates, targets, config.threshold), config);
  }

  /** The score reported is the mean similarity of the reported pairs. */
  lemma ReportedMean(targets: seq<Segment>, candidates: seq<Segment>, config: Config, coarse: Option<real>, sim: seq<seq<real>>, r: Report,
                     similarities: seq<real>)
    requires IsMatrix(sim, |candidates|, |targets|)
    requires HasHits(targets, candidates, config, coarse, sim) && config.tolerance >= 0
    requires Match(targets, candidates, config, coarse, sim) == Ok(r)
    requires |similarities| == |r.pairs| && forall k :: 0 <= k < |r.pairs| ==> similarities[k] == r.pairs[k].s
    ensures r.pairs != [] && r.score == Mean(similarities) && r.mean == Some(r.score) && r.count == |r.pairs|
  {
    ReportIs(targets, candidates, config, coarse, sim, r);
    hide Match, HasHits, Extracted, InSegments, RunSpan;
    TotalIsSum(r.pairs, similarities);
  }

  lemma {:induction false} TotalIsSum(pairs: seq<Hit>, similarities: seq<real>)
    requires |similarities| == |pairs| && forall k :: 0 <= k < |pairs| ==> similarities[k] == pairs[k].s
    ensures TotalSimilarity(pairs) == Sum(similarities)
  {
    if pairs != [] {
      TotalIsSum(pairs[..|pairs| - 1], similarities[..|pairs| - 1]);
    }
  }

  lemma ReportFields(pairs: seq<Hit>, targets: seq<Segment>, candidates: seq<Segment>, config: Config, coarse: Option<real>)
    requires pairs != [] && InSegments(pairs, targets, candidates)
    ensures var r := RunReport(pairs, targets, candidates, config, coarse);
            var mean := MeanSimilarity(pairs);
            var span := RunSpan(pairs, targets, candidates);
            && r.pairs == pairs && r.count == |pairs| && r.mean == Some(mean) && r.span == Some(span)
            && r.offset == Some(span.targetStart - span.candidateStart)
            && (r.matched <==> |pairs| >= config.minMatched && mean >= config.threshold)
  {
  }

  lemma ExtractedMembers(pairs: seq<Hit>, targets: seq<Segment>, candidates: seq<Segment>, config: Config, sim: seq<seq<real>>, h: Hit)
    requires IsMatrix(sim, |candidates|, |targets|)
    requires Hits(sim, candidates, targets, config.threshold) != []
    requires Extracted(pairs, Hits(sim, candidates, targets, config.threshold), config) && h in pairs
    ensures var hits := Hits(sim, candidates, targets, config.threshold);
            h.s >= config.threshold && Near(h, DominantOffset(hits, |hits|), config.tolerance)
    ensures exists k :: Within(candidates, k, h.c, 0, 0)
    ensures var hits := Hits(sim, candidates, targets, config.threshold);
            exists k :: Within(targets, k, h.c, DominantOffset(hits, |hits|), config.tolerance)
  {
    var hits := Hits(sim, candidates, targets, config.threshold);
    var d := DominantOffset(hits, |hits|);
    assert h in hits && Near(h, d, config.tolerance);
    hide Hits, DominantOffset, Extracted, IsMatrix;
    HitWithin(targets, candidates, config, sim, h, d);
  }

  lemma HitWithin(targets: seq<Segment>, candidates: seq<Segment>, config: Config, sim: seq<seq<real>>, h: Hit, d: int)
    requires IsMatrix(sim, |candidates|, |targets|)
    requires h in Hits(sim, candidates, targets, config.threshold) && Near(h, d, config.tolerance)
    ensures h.s >= config.threshold
    ensures exists k :: Within(candidates, k, h.c, 0, 0)
    ensures exists k :: Within(targets, k, h.c, d, config.tolerance)
  {
    hide Hits;
    var i, j := HitFrom(sim, candidates, targets, config.threshold, h);
    assert Within(candidates, i, h.c, 0, 0);
    assert Within(targets, j, h.c, d, config.tolerance);
  }

  lemma CountBounds(pairs: seq<Hit>, targets: seq<Segment>, candidates: seq<Segment>, config: Config, sim: seq<seq<real>>)
    requires IsMatrix(sim, |candidates|, |targets|) && config.tolerance >= 0
    requires Hits(sim, candidates, targets, config.threshold) != []
    requires Extracted(pairs, Hits(sim, candidates, targets, config.threshold), config)
    ensures |pairs| <= |candidates|
    ensures |pairs| <= UpTo(|targets|, config.tolerance)
  {
    var hits := Hits(sim, candidates, targets, config.threshold);
    var d := DominantOffset(hits, |hits|);
    assert ByCandidate(pairs);
    hide *;
    forall h | h in pairs
      ensures (exists k :: Within(candidates, k, h.c, 0, 0)) && exists k :: Within(targets, k, h.c, d, config.tolerance)
    {
      ExtractedMembers(pairs, targets, candidates, config, sim, h);
    }
    CoveredSize(pairs, candidates, 0, 0);
    NoTolerance(|candidates|);
    CoveredSize(pairs, targets, d, config.tolerance);
  }

  lemma NoTolerance(n: nat)
    ensures UpTo(n, 0) == n
  {
  }

  lemma CoveredSize(list: seq<Hit>, segments: seq<Segment>, shift: int, w: nat)
    requires ByCandidate(list)
    requires forall h :: h in list ==> exists k :: Within(segments, k, h.c, shift, w)
    ensures |list| <= UpTo(|segments|, w)
  {
    IndexSetSize(list);
    CoverSize(IndexSet(list), segments, shift, w);
  }

  lemma SpansDiffer(pairs: seq<Hit>, targets: seq<Segment>, candidates: seq<Segment>, config: Config, sim: seq<seq<real>>)
    requires IsMatrix(sim, |candidates|, |targets|)
    requires Hits(sim, candidates, targets, config.threshold) != []
    requires Extracted(pairs, Hits(sim, candidates, targets, config.threshold), config)
    ensures forall i, j :: 0 <= i < j < |pairs| ==>
              -2 * config.tolerance <= (pairs[j].t - pairs[i].t) - (pairs[j].c - pairs[i].c) <= 2 * config.tolerance
  {
    forall i, j | 0 <= i < j < |pairs|
      ensures -2 * config.tolerance <= (pairs[j].t - pairs[i].t) - (pairs[j].c - pairs[i].c) <= 2 * config.tolerance
    {
      hide Extracted, Hits, DominantOffset, Within;
      ExtractedMembers(pairs, targets, candidates, config, sim, pairs[i]);
      ExtractedMembers(pairs, targets, candidates, config, sim, pairs[j]);
    }
  }

  lemma MeanBound(pairs: seq<Hit>, targets: seq<Segment>, candidates: seq<Segment>, config: Config, sim: seq<seq<real>>)
    requires IsMatrix(sim, |candidates|, |targets|) && pairs != []
    requires Hits(sim, candidates, targets, config.threshold) != []
    requires Extracted(pairs, Hits(sim, candidates, targets, config.threshold), config)
    ensures MeanSimilarity(pairs) >= config.threshold
  {
    hide *;
    forall i | 0 <= i < |pairs| ensures pairs[i].s >= config.threshold {
      ExtractedMembers(pairs, targets, candidates, config, sim, pairs[i]);
    }
    MeanAtLeast(pairs, config.threshold);
  }

  /**
   Neighbouring pairs of the run are at most maxGap candidate segments apart; in target segments the
   gap may be wider by twice the tolerance.
   */
  lemma GapBounds(targets: seq<Segment>, candidates: seq<Segment>, config: Config, coarse: Option<real>, sim: seq<seq<real>>, r: Report, i: nat)
    requires IsMatrix(sim, |candidates|, |targets|)
    requires HasHits(targets, candidates, config, coarse, sim) && config.tolerance >= 0
    requires Match(targets, candidates, config, coarse, sim) == Ok(r)
    requires 0 < i < |r.pairs|
    ensures 1 <= r.pairs[i].c - r.pairs[i - 1].c <= config.maxGap
    ensures 0 <= r.pairs[i].t - r.pairs[i - 1].t <= config.maxGap + 2 * config.tolerance
  {
    hide Match, Hits;
    ReportBounds(targets, candidates, config, coarse, sim, r);
    RunExtraction(targets, candidates, config, coarse, sim, r);
    assert Chained(r.pairs, config.maxGap);
    assert Linked(r.pairs[i - 1], r.pairs[i], config.maxGap);
  }

  // ---------------------------------------------------------------------------
  // Localisation
  // ---------------------------------------------------------------------------

  lemma {:induction false} ByIndexIs(segments: seq<Segment>, k: nat)
    requires k < |segments| && Increasing(segments)
    ensures ByIndex(segments, segments[k].index) == segments[k]
  {
    var n := |segments| - 1;
    if k < n {
      assert segments[k].index < segments[n].index;
      assert segments[..n][k].index == segments[k].index;
      ByIndexIs(segments[..n], k);
    }
  }

  /** Positions of the segments of a pair. */
  predicate At(h: Hit, candidates: seq<Segment>, targets: seq<Segment>, i: nat, j: nat) {
    i < |candidates| && j < |targets| && candidates[i].index == h.c && targets[j].index == h.t
  }

  /** The reported times are those of the segments of the first and the last pair. */
  lemma SpanOfEnds(run: seq<Hit>, targets: seq<Segment>, candidates: seq<Segment>, maxGap: int, i: nat, j: nat, k: nat, l: nat)
    requires run != [] && InSegments(run, targets, candidates) && Increasing(targets) && Increasing(candidates)
    requires ByCandidate(run) && Chained(run, maxGap)
    requires At(run[0], candidates, targets, i, j) && At(Last(run), candidates, targets, k, l)
    ensures RunSpan(run, targets, candidates)
            == Span(targets[j].start, targets[l].end, candidates[i].start, candidates[k].end)
  {
    TargetsDoNotFall(run, maxGap);
    EndsOf(CandidateIndices(run));
    EndsOf(TargetIndices(run));
    hide Least, Greatest, ByIndex;
    ByIndexIs(candidates, i);
    ByIndexIs(candidates, k);
    ByIndexIs(targets, j);
    ByIndexIs(targets, l);
  }

  lemma EndsOf(values: seq<int>)
    requires values != [] && forall i, j :: 0 <= i <= j < |values| ==> values[i] <= values[j]
    ensures Least(values) == values[0] && Greatest(values) == Last(values)
  {
    var x :| 0 <= x < |values| && values[x] == Least(values);
    var y :| 0 <= y < |values| && values[y] == Greatest(values);
  }

  lemma {:induction false} TargetsDoNotFall(run: seq<Hit>, maxGap: int)
    requires Chained(run, maxGap)
    ensures forall i, j :: 0 <= i <= j < |run| ==> run[i].t <= run[j].t
  {
    if run != [] {
      var n := |run| - 1;
      TargetsDoNotFall(run[..n], maxGap);
      assert forall i :: 0 <= i < n ==> run[..n][i] == run[i];
      assert n > 0 ==> Linked(run[n - 1], run[n], maxGap);
    }
  }

  /** The times of a report are those of the segments of its first and its last pair. */
  lemma ReportedTimes(targets: seq<Segment>, candidates: seq<Segment>, config: Config, coarse: Option<real>, sim: seq<seq<real>>, r: Report)
    returns (i: nat, j: nat, k: nat, l: nat)
    requires IsMatrix(sim, |candidates|, |targets|)
    requires HasHits(targets, candidates, config, coarse, sim) && config.tolerance >= 0
    requires Match(targets, candidates, config, coarse, sim) == Ok(r)
    ensures r.pairs != []
    ensures At(r.pairs[0], candidates, targets, i, j) && At(Last(r.pairs), candidates, targets, k, l)
    ensures r.span == Some(Span(targets[j].start, targets[l].end, candidates[i].start, candidates[k].end))
    ensures r.offset == Some(targets[j].start - candidates[i].start)
    ensures var x, y := candidates[k].end - candidates[i].start, targets[l].end - targets[j].start;
            r.duration <= x && r.duration <= y && (r.duration == x || r.duration == y)
    ensures r.totalTarget == |targets| && r.totalCandidate == |candidates| && r.coarse == coarse && Some(r.score) == r.mean
  {
    hide *;
    ReportIsRun(targets, candidates, config, coarse, sim, r);
    TimesOfSpan(r.pairs, targets, candidates, config, coarse);
    i, j := PairAt(r.pairs[0], r.pairs, targets, candidates);
    k, l := PairAt(Last(r.pairs), r.pairs, targets, candidates);
    SpanOfEnds(r.pairs, targets, candidates, config.maxGap, i, j, k, l);
  }

  lemma ReportIsRun(targets: seq<Segment>, candidates: seq<Segment>, config: Config, coarse: Option<real>, sim: seq<seq<real>>, r: Report)
    requires IsMatrix(sim, |candidates|, |targets|)
    requires HasHits(targets, candidates, config, coarse, sim) && config.tolerance >= 0
    requires Match(targets, candidates, config, coarse, sim) == Ok(r)
    ensures Increasing(targets) && Increasing(candidates)
    ensures r.pairs != [] && InSegments(r.pairs, targets, candidates) && ByCandidate(r.pairs) && Chained(r.pairs, config.maxGap)
    ensures r == RunReport(r.pairs, targets, candidates, config, coarse)
    ensures r.pairs[0] in r.pairs && Last(r.pairs) in r.pairs
  {
    hide Match, Hits;
    ReportIs(targets, candidates, config, coarse, sim, r);
  }

  lemma TimesOfSpan(run: seq<Hit>, targets: seq<Segment>, candidates: seq<Segment>, config: Config, coarse: Option<real>)
    requires run != [] && InSegments(run, targets, candidates)
    ensures var r, span := RunReport(run, targets, candidates, config, coarse), RunSpan(run, targets, candidates);
            var x, y := span.candidateEnd - span.candidateStart, span.targetEnd - span.targetStart;
            && r.span == Some(span) && r.offset == Some(span.targetStart - span.candidateStart)
            && r.duration == (if y < x then y else x)
            && r.totalTarget == |targets| && r.totalCandidate == |candidates| && r.coarse == coarse && Some(r.score) == r.mean
  {
    hide RunSpan, MeanSimilarity, InSegments;
  }

  lemma PairAt(h: Hit, run: seq<Hit>, targets: seq<Segment>, candidates: seq<Segment>) returns (i: nat, j: nat)
    requires h in run && InSegments(run, targets, candidates)
    ensures At(h, candidates, targets, i, j)
  {
    i :| 0 <= i < |candidates| && candidates[i].index == h.c;
    j :| 0 <= j < |targets| && targets[j].index == h.t;
  }

  // ---------------------------------------------------------------------------
  // Completeness
  // ---------------------------------------------------------------------------

  lemma {:induction false} OneRun(list: seq<Hit>, maxGap: int)
    requires list != [] && Chained(list, maxGap)
    ensures Runs(list, maxGap) == [list]
  {
    var n := |list| - 1;
    if n == 0 {
      hide Runs, Linked, Chained;
      FirstRun(list, maxGap);
      assert list[..1] == list && [list[0]] == list;
    } else {
      assert Linked(list[n - 1], list[n], maxGap);
      hide Runs;
      OneRun(list[..n], maxGap);
      hide Linked, Chained;
      var front, x := list[..n], list[n];
      assert list == front + [x];
      assert [] + [front] == [front] && [] + [front + [x]] == [front + [x]];
      RunsStep(front, maxGap, [], front, x);
    }
  }

  lemma DistinctAreSelected(list: seq<Hit>)
    requires ByCandidate(list)
    ensures Selected(list) == list
  {
    SelectedAre(list);
    SelectedByCandidate(list);
    hide Selected;
    forall h ensures h in Selected(list) <==> h in list {
      if h in list {
        var k :| 0 <= k < |list| && list[k] == h;
        assert IsBest(list, k);
      }
    }
    SameElements(Selected(list), list);
  }

  lemma OneOffsetByCandidate(hits: seq<Hit>, offset: int)
    requires Ascending(hits) && forall h :: h in hits ==> Offset(h) == offset
    ensures ByCandidate(hits)
  {
    forall i, j | 0 <= i < j < |hits| ensures hits[i].c < hits[j].c {
      assert hits[i] in hits && hits[j] in hits && Before(hits[i], hits[j]);
    }
  }

  /** All hits at one offset: they are the list the runs are cut from. */
  lemma OneOffset(hits: seq<Hit>, offset: int, config: Config)
    requires hits != [] && Ascending(hits) && config.tolerance >= 0
    requires forall h :: h in hits ==> Offset(h) == offset
    ensures ByCandidate(hits) && Ordered(hits, config) == hits
  {
    var d := DominantOffset(hits, |hits|);
    DominantIsMostFrequent(hits, |hits|);
    assert d == offset by {
      var i :| 0 <= i < |hits| && Offset(hits[i]) == d;
      assert hits[i] in hits;
    }
    hide DominantOffset, Selected, Consistent;
    var consistent := Consistent(hits, d, config.tolerance);
    forall h ensures h in consistent <==> h in hits {
      ConsistentAre(hits, d, config.tolerance, h);
    }
    ConsistentAscend(hits, d, config.tolerance);
    OneOffsetByCandidate(hits, offset);
    OneOffsetByCandidate(consistent, offset);
    DistinctAreSelected(consistent);
    SameElements(consistent, hits);
  }

  /**
   If all hits share one offset and no gap between candidates is too wide, dropped segments do not
   matter: the result lists every hit.
   */
  lemma OneDiagonal(targets: seq<Segment>, candidates: seq<Segment>, config: Config, coarse: Option<real>, sim: seq<seq<real>>,
                    offset: int, r: Report)
    requires IsMatrix(sim, |candidates|, |targets|)
    requires HasHits(targets, candidates, config, coarse, sim) && config.tolerance >= 0
    requires OnDiagonal(Hits(sim, candidates, targets, config.threshold), offset, config.maxGap)
    requires Match(targets, candidates, config, coarse, sim) == Ok(r)
    ensures r.pairs == Hits(sim, candidates, targets, config.threshold)
  {
    var hits := Hits(sim, candidates, targets, config.threshold);
    HitsAscend(sim, candidates, targets, config.threshold);
    NoStageIsEmpty(targets, candidates, config, coarse, sim);
    hide Hits, Match, HasHits, Selected, Consistent, DominantOffset, RunSpan;
    OneOffset(hits, offset, config);
    forall k | 0 < k < |hits| ensures Linked(hits[k - 1], hits[k], config.maxGap) {
      assert hits[k - 1] in hits && hits[k] in hits && hits[k - 1].c < hits[k].c;
    }
    OneRun(hits, config.maxGap);
    assert RunsFound(hits, config) == [hits];
  }

  predicate OnDiagonal(hits: seq<Hit>, offset: int, maxGap: int) {
    && (forall h :: h in hits ==> Offset(h) == offset)
    && (forall i :: 0 < i < |hits| ==> hits[i].c - hits[i - 1].c <= maxGap)
  }

  ghost predicate HoldsCandidate(list: seq<Hit>, c: int) {
    exists h :: h in list && h.c == c
  }

  predicate InRange(list: seq<Hit>, from: int, n: nat) {
    forall h :: h in list ==> from <= h.c < from + n
  }

  ghost predicate HoldsAll(list: seq<Hit>, from: int, n: nat) {
    forall c :: from <= c < from + n ==> HoldsCandidate(list, c)
  }

  lemma ConsecutiveTail(list: seq<Hit>, from: int, n: nat)
    requires ByCandidate(list) && InRange(list, from, n) && HoldsAll(list, from, n) && n > 0
    ensures list != [] && list[0].c == from
    ensures ByCandidate(list[1..]) && InRange(list[1..], from + 1, n - 1) && HoldsAll(list[1..], from + 1, n - 1)
  {
    assert HoldsCandidate(list, from);
    var h :| h in list && h.c == from;
    assert list[0] in list && list[0].c == from;
    TailHolds(list);
    forall h | h in list[1..] ensures from + 1 <= h.c {
      var i :| 0 <= i < |list| - 1 && list[1..][i] == h;
      assert list[0].c < list[i + 1].c;
    }
    forall c | from + 1 <= c < from + n ensures HoldsCandidate(list[1..], c) {
      assert HoldsCandidate(list, c);
      var h :| h in list && h.c == c;
      assert h in list[1..];
    }
  }

  lemma {:induction false} Consecutive(list: seq<Hit>, from: int, n: nat)
    requires ByCandidate(list) && InRange(list, from, n) && HoldsAll(list, from, n)
    ensures |list| == n && forall k :: 0 <= k < n ==> list[k].c == from + k
  {
    if n == 0 {
      if list != [] {
        Inhabited(list);
      }
    } else {
      ConsecutiveTail(list, from, n);
      hide ByCandidate, InRange, HoldsAll;
      Consecutive(list[1..], from + 1, n - 1);
      assert forall k :: 0 < k < |list| ==> list[k] == list[1..][k - 1];
    }
  }

  /** The hits are the pairs of n consecutive candidate segments with the target segments d further on. */
  ghost predicate IsExcerpt(hits: seq<Hit>, first: int, n: nat, d: int) {
    && InRange(hits, first, n) && HoldsAll(hits, first, n)
    && forall h :: h in hits ==> Offset(h) == d
  }

  /** The time of an index when every segment lasts as long. */
  function Time(index: int, duration: real): real {
    index as real * duration
  }

  /** Times proportional to the index. */
  predicate Uniform(segments: seq<Segment>, duration: real) {
    forall k :: 0 <= k < |segments| ==> segments[k].start == Time(segments[k].index, duration)
  }

  /**
   An exact excerpt is found whole, with its offset in time, and decided by its length: n >= 1
   consecutive candidate segments, all and only the pairs at offset d hitting.
   */
  lemma ExactExcerpt(targets: seq<Segment>, candidates: seq<Segment>, config: Config, coarse: Option<real>, sim: seq<seq<real>>,
                     first: int, n: nat, d: int, r: Report)
    requires IsMatrix(sim, |candidates|, |targets|)
    requires HasHits(targets, candidates, config, coarse, sim) && config.tolerance >= 0 && config.maxGap >= 1
    requires IsExcerpt(Hits(sim, candidates, targets, config.threshold), first, n, d)
    requires Match(targets, candidates, config, coarse, sim) == Ok(r)
    ensures |r.pairs| == n && forall k :: 0 <= k < n ==> r.pairs[k].c == first + k && r.pairs[k].t == first + k + d
    ensures r.matched <==> n >= config.minMatched
  {
    hide Match, Hits;
    var hits := Hits(sim, candidates, targets, config.threshold);
    HitsAscend(sim, candidates, targets, config.threshold);
    ExcerptOnDiagonal(hits, config, first, n, d);
    hide *;
    OneDiagonal(targets, candidates, config, coarse, sim, d, r);
    ReportBounds(targets, candidates, config, coarse, sim, r);
  }

  /** Its offset in time is d segments, when all segments last as long. */
  lemma ExcerptIsLocated(targets: seq<Segment>, candidates: seq<Segment>, config: Config, coarse: Option<real>, sim: seq<seq<real>>,
                         first: int, n: nat, d: int, duration: real, r: Report)
    requires IsMatrix(sim, |candidates|, |targets|)
    requires HasHits(targets, candidates, config, coarse, sim) && config.tolerance >= 0 && config.maxGap >= 1
    requires IsExcerpt(Hits(sim, candidates, targets, config.threshold), first, n, d)
    requires Uniform(targets, duration) && Uniform(candidates, duration)
    requires Match(targets, candidates, config, coarse, sim) == Ok(r)
    ensures r.offset == Some(Time(d, duration))
  {
    hide Match, Hits, IsExcerpt, Uniform;
    var hits := Hits(sim, candidates, targets, config.threshold);
    assert Increasing(targets) && Increasing(candidates) && hits != [];
    HitsAscend(sim, candidates, targets, config.threshold);
    ExcerptOnDiagonal(hits, config, first, n, d);
    hide *;
    OneDiagonal(targets, candidates, config, coarse, sim, d, r);
    ReportedOffset(targets, candidates, config, coarse, sim, r);
    ExcerptOffset(hits, targets, candidates, config, sim, d, duration);
  }

  function RunOffset(run: seq<Hit>, targets: seq<Segment>, candidates: seq<Segment>): real
    requires run != [] && InSegments(run, targets, candidates)
  {
    RunSpan(run, targets, candidates).targetStart - RunSpan(run, targets, candidates).candidateStart
  }

  lemma ReportedOffset(targets: seq<Segment>, candidates: seq<Segment>, config: Config, coarse: Option<real>, sim: seq<seq<real>>, r: Report)
    requires IsMatrix(sim, |candidates|, |targets|)
    requires HasHits(targets, candidates, config, coarse, sim) && config.tolerance >= 0
    requires Match(targets, candidates, config, coarse, sim) == Ok(r)
    ensures r.pairs != [] && InSegments(r.pairs, targets, candidates)
    ensures r.offset == Some(RunOffset(r.pairs, targets, candidates))
  {
    ReportIs(targets, candidates, config, coarse, sim, r);
    hide *;
    OffsetField(r.pairs, targets, candidates, config, coarse);
  }

  lemma OffsetField(run: seq<Hit>, targets: seq<Segment>, candidates: seq<Segment>, config: Config, coarse: Option<real>)
    requires run != [] && InSegments(run, targets, candidates)
    ensures RunReport(run, targets, candidates, config, coarse).offset == Some(RunOffset(run, targets, candidates))
  {
    hide RunSpan, MeanSimilarity, InSegments;
  }

  lemma ExcerptOnDiagonal(hits: seq<Hit>, config: Config, first: int, n: nat, d: int)
    requires hits != [] && Ascending(hits) && config.tolerance >= 0 && config.maxGap >= 1
    requires IsExcerpt(hits, first, n, d)
    ensures OnDiagonal(hits, d, config.maxGap) && Chained(hits, config.maxGap) && ByCandidate(hits)
    ensures |hits| == n && forall k :: 0 <= k < n ==> hits[k].c == first + k && hits[k].t == first + k + d
    ensures Offset(hits[0]) == d
  {
    OneOffset(hits, d, config);
    Consecutive(hits, first, n);
    assert forall k :: 0 <= k < n ==> hits[k] in hits;
  }

  lemma ExcerptOffset(run: seq<Hit>, targets: seq<Segment>, candidates: seq<Segment>, config: Config, sim: seq<seq<real>>, d: int, duration: real)
    requires IsMatrix(sim, |candidates|, |targets|) && run == Hits(sim, candidates, targets, config.threshold)
    requires run != [] && InSegments(run, targets, candidates) && Increasing(targets) && Increasing(candidates)
    requires ByCandidate(run) && Chained(run, config.maxGap) && Offset(run[0]) == d
    requires Uniform(targets, duration) && Uniform(candidates, duration)
    ensures RunOffset(run, targets, candidates) == Time(d, duration)
  {
    hide RunSpan, Hits, Chained, ByCandidate, InSegments, Increasing, Time;
    var i, j := HitFrom(sim, candidates, targets, config.threshold, run[0]);
    var k, l := HitFrom(sim, candidates, targets, config.threshold, Last(run));
    SpanOfEnds(run, targets, candidates, config.maxGap, i, j, k, l);
    Scaled(targets[j].index, candidates[i].index, duration);
  }

  lemma Scaled(x: int, y: int, duration: real)
    ensures Time(x, duration) - Time(y, duration) == Time(x - y, duration)
  {
  }

  /** The smallest match: one segment on either side, equal, and a minimum of one. */
  lemma OneMatch(segments: seq<Segment>, config: Config, sim: seq<seq<real>>, r: Report)
    requires segments == [Segment(0, 0.0, 1.0, 1)] && config == Config(0.9, 0.6, 1, 1, 2) && sim == [[1.0]]
    requires Match(segments, segments, config, None, sim) == Ok(r)
    ensures r.matched && r.count == 1 && r.pairs[0].c == 0 && r.pairs[0].t == 0
  {
    OneHit(segments, config, sim);
    assert config.tolerance >= 0 && config.maxGap >= 1 && config.minMatched == 1;
    hide *;
    ExactExcerpt(segments, segments, config, None, sim, 0, 1, 0, r);
    ReportBounds(segments, segments, config, None, sim, r);
  }

  /** It meets the hypotheses of the results above, and is not refused. */
  lemma OneHit(segments: seq<Segment>, config: Config, sim: seq<seq<real>>)
    requires segments == [Segment(0, 0.0, 1.0, 1)] && config == Config(0.9, 0.6, 1, 1, 2) && sim == [[1.0]]
    ensures HasHits(segments, segments, config, None, sim)
    ensures IsExcerpt(Hits(sim, segments, segments, config.threshold), 0, 1, 0)
    ensures Match(segments, segments, config, None, sim).Ok?
  {
    OnlyHit(segments, config.threshold, sim);
    OnlyHitIsExcerpt(Hits(sim, segments, segments, config.threshold));
    assert HasHits(segments, segments, config, None, sim) by {
      hide Hits, IsExcerpt;
    }
    assert config.tolerance >= 0;
    hide *;
    NoStageIsEmpty(segments, segments, config, None, sim);
  }

  lemma OnlyHitIsExcerpt(hits: seq<Hit>)
    requires Hit(0, 0, 1.0) in hits && forall g :: g in hits ==> g == Hit(0, 0, 1.0)
    ensures hits != [] && IsExcerpt(hits, 0, 1, 0)
  {
    assert HoldsCandidate(hits, 0);
  }

  lemma OnlyHit(segments: seq<Segment>, threshold: real, sim: seq<seq<real>>)
    requires segments == [Segment(0, 0.0, 1.0, 1)] && threshold <= 1.0 && sim == [[1.0]]
    ensures Hit(0, 0, 1.0) in Hits(sim, segments, segments, threshold)
    ensures forall g :: g in Hits(sim, segments, segments, threshold) ==> g == Hit(0, 0, 1.0)
  {
    var h := Hit(0, 0, 1.0);
    assert IsHit(h, sim, segments, segments, threshold, 0, 0);
    HitAt(sim, segments, segments, threshold, h, 0, 0);
    hide Hits;
    forall g | g in Hits(sim, segments, segments, threshold) ensures g == h {
      var i, j := HitFrom(sim, segments, segments, threshold, g);
    }
  }

  // ---------------------------------------------------------------------------
  // The widest target gap
  // ---------------------------------------------------------------------------

  /** Indices of the segments below: three on either side, in increasing order. */
  function Marks(a: nat, b: nat, c: nat): (marks: seq<Segment>)
    ensures |marks| == 3
  {
    [Segment(a, 0.0, 1.0, 1), Segment(b, 0.0, 1.0, 1), Segment(c, 0.0, 1.0, 1)]
  }

  function GapCandidates(config: Config): (marks: seq<Segment>)
    requires config.tolerance >= 0 && config.maxGap >= 1
    ensures |marks| == 3
  {
    Marks(0, config.tolerance + config.maxGap + 1, config.tolerance + 2 * config.maxGap + 1)
  }

  function GapTargets(config: Config): (marks: seq<Segment>)
    requires config.tolerance >= 0 && config.maxGap >= 1
    ensures |marks| == 3
  {
    Marks(config.tolerance, config.tolerance + config.maxGap + 1, 3 * config.tolerance + 2 * config.maxGap + 1)
  }

  /** Only the pairs of equal position reach the threshold. */
  function DiagonalSim(threshold: real): (sim: seq<seq<real>>)
    ensures IsMatrix(sim, 3, 3)
  {
    var low := threshold - 1.0;
    [[threshold, low, low], [low, threshold, low], [low, low, threshold]]
  }

  /** The three hits: at offset tolerance first, then at 0 and at twice the tolerance. */
  function GapHits(config: Config): seq<Hit> {
    var t, g, s := config.tolerance, config.maxGap, config.threshold;
    [Hit(0, t, s), Hit(t + g + 1, t + g + 1, s), Hit(t + 2 * g + 1, 3 * t + 2 * g + 1, s)]
  }

  lemma GapHitsAre(config: Config)
    requires config.tolerance >= 0 && config.maxGap >= 1
    ensures Hits(DiagonalSim(config.threshold), GapCandidates(config), GapTargets(config), config.threshold) == GapHits(config)
  {
    var sim, cs, ts, s := DiagonalSim(config.threshold), GapCandidates(config), GapTargets(config), config.threshold;
    RowOf(sim[0], cs[0].index, ts, s, 0);
    RowOf(sim[1], cs[1].index, ts, s, 1);
    RowOf(sim[2], cs[2].index, ts, s, 2);
    ThreeRows(sim, cs, ts, s);
  }

  /** A row of three in which only one similarity reaches the threshold. */
  lemma RowOf(row: seq<real>, c: int, targets: seq<Segment>, threshold: real, k: nat)
    requires |row| == |targets| == 3 && k < 3
    requires forall j :: 0 <= j < 3 ==> (row[j] >= threshold <==> j == k)
    ensures RowHits(row, c, targets, threshold) == [Hit(c, targets[k].index, row[k])]
  {
    var n2, n1 := row[..2], row[..1];
    assert n2[..1] == n1 && n1[..0] == [];
    assert targets[..2][..1] == targets[..1];
    assert RowHits(n1[..0], c, targets[..1][..0], threshold) == [];
    assert RowHits(n1, c, targets[..1], threshold) == if k == 0 then [Hit(c, targets[0].index, row[0])] else [];
    assert RowHits(n2, c, targets[..2], threshold)
        == RowHits(n1, c, targets[..1], threshold) + if k == 1 then [Hit(c, targets[1].index, row[1])] else [];
  }

  lemma ThreeRows(sim: seq<seq<real>>, candidates: seq<Segment>, targets: seq<Segment>, threshold: real)
    requires |candidates| == 3 && IsMatrix(sim, 3, |targets|)
    ensures Hits(sim, candidates, targets, threshold)
            == RowHits(sim[0], candidates[0].index, targets, threshold)
             + RowHits(sim[1], candidates[1].index, targets, threshold)
             + RowHits(sim[2], candidates[2].index, targets, threshold)
  {
    hide RowHits;
    assert sim[..2][..1] == sim[..1] && candidates[..2][..1] == candidates[..1];
    assert Hits(sim[..1][..0], candidates[..1][..0], targets, threshold) == [];
    assert Hits(sim[..1], candidates[..1], targets, threshold) == RowHits(sim[0], candidates[0].index, targets, threshold);
    assert Hits(sim[..2], candidates[..2], targets, threshold)
        == Hits(sim[..1], candidates[..1], targets, threshold) + RowHits(sim[1], candidates[1].index, targets, threshold);
  }

  lemma GapOffset(config: Config)
    requires config.tolerance >= 0 && config.maxGap >= 1
    ensures DominantOffset(GapHits(config), 3) == config.tolerance
  {
    var hits := GapHits(config);
    DominantIsMostFrequent(hits, 3);
    var t := config.tolerance;
    if t > 0 {
      CountThree(hits, 0);
      CountThree(hits, t);
      CountThree(hits, 2 * t);
    }
  }

  lemma CountThree(hits: seq<Hit>, offset: int)
    requires |hits| == 3
    ensures OffsetCount(hits, offset)
            == (if Offset(hits[0]) == offset then 1 else 0) + (if Offset(hits[1]) == offset then 1 else 0)
             + (if Offset(hits[2]) == offset then 1 else 0)
  {
    assert hits[..2][..1] == hits[..1] && hits[..1][..0] == [];
    assert OffsetCount(hits[..1], offset) == OffsetCount(hits[..1][..0], offset) + if Offset(hits[0]) == offset then 1 else 0;
    assert OffsetCount(hits[..2], offset) == OffsetCount(hits[..1], offset) + if Offset(hits[1]) == offset then 1 else 0;
  }

  /** All three hits are selected; the first is too far from the second to be in its run. */
  lemma GapRuns(config: Config)
    requires config.tolerance >= 0 && config.maxGap >= 1
    ensures var hits := GapHits(config); RunsFound(hits, config) == [[hits[0]], [hits[1], hits[2]]]
  {
    var hits := GapHits(config);
    GapOffset(config);
    var consistent := Consistent(hits, config.tolerance, config.tolerance);
    forall h ensures h in consistent <==> h in hits {
      ConsistentAre(hits, config.tolerance, config.tolerance, h);
    }
    ConsistentAscend(hits, config.tolerance, config.tolerance);
    assert ByCandidate(hits);
    AscendingSame(consistent, hits);
    DistinctAreSelected(hits);
    ThreeRuns(hits, config.maxGap);
  }

  /** Two ascending lists with the same hits, no two of one candidate, are the same. */
  lemma AscendingSame(x: seq<Hit>, y: seq<Hit>)
    requires Ascending(x) && ByCandidate(y) && forall h :: h in x <==> h in y
    ensures x == y
  {
    forall i, j | 0 <= i < j < |x| ensures x[i].c < x[j].c {
      assert x[i] in y && x[j] in y && Before(x[i], x[j]);
      var k :| 0 <= k < |y| && y[k] == x[i];
      var l :| 0 <= l < |y| && y[l] == x[j];
      assert k == l || y[k].c < y[l].c || y[l].c < y[k].c;
    }
    SameElements(x, y);
  }

  lemma ThreeRuns(hits: seq<Hit>, maxGap: int)
    requires |hits| == 3 && !Linked(hits[0], hits[1], maxGap) && Linked(hits[1], hits[2], maxGap)
    ensures Runs(hits, maxGap) == [[hits[0]], [hits[1], hits[2]]]
  {
    assert [hits[0]] == hits[..1] && hits[..1] + [hits[1]] == hits[..2] && hits[..2] + [hits[2]] == hits;
    OneRun([hits[0]], maxGap);
    assert [] + [[hits[0]]] == [[hits[0]]];
    RunsStep(hits[..1], maxGap, [], [hits[0]], hits[1]);
    assert [[hits[0]], [hits[1]]] == [[hits[0]]] + [[hits[1]]];
    RunsStep(hits[..2], maxGap, [[hits[0]]], [hits[1]], hits[2]);
    assert [hits[1]] + [hits[2]] == [hits[1], hits[2]];
    assert [[hits[0]]] + [[hits[1], hits[2]]] == [[hits[0]], [hits[1], hits[2]]];
  }

  /** The bound is attained for every configuration: a run whose target gap is maxGap plus twice the tolerance. */
  lemma WidestGap(config: Config, r: Report)
    requires config.tolerance >= 0 && config.maxGap >= 1
    requires Match(GapTargets(config), GapCandidates(config), config, None, DiagonalSim(config.threshold)) == Ok(r)
    ensures |r.pairs| == 2 && r.pairs[1].c - r.pairs[0].c == config.maxGap
    ensures r.pairs[1].t - r.pairs[0].t == config.maxGap + 2 * config.tolerance
  {
    var hits := GapHits(config);
    GapInput(config);
    GapHitsAre(config);
    GapRuns(config);
    LongestOfTwo([hits[0]], [hits[1], hits[2]]);
    assert hits[2].c - hits[1].c == config.maxGap && hits[2].t - hits[1].t == config.maxGap + 2 * config.tolerance;
    hide *;
    ReportedIsLongest(GapTargets(config), GapCandidates(config), config, None, DiagonalSim(config.threshold), r);
  }

  lemma LongestOfTwo(x: seq<Hit>, y: seq<Hit>)
    requires |x| < |y|
    ensures Longest([x, y]) == y
  {
    assert [x, y][..1] == [x];
  }

  lemma ReportedIsLongest(targets: seq<Segment>, candidates: seq<Segment>, config: Config, coarse: Option<real>, sim: seq<seq<real>>, r: Report)
    requires IsMatrix(sim, |candidates|, |targets|)
    requires HasHits(targets, candidates, config, coarse, sim) && config.tolerance >= 0
    requires Match(targets, candidates, config, coarse, sim) == Ok(r)
    ensures RunsFound(Hits(sim, candidates, targets, config.threshold), config) != []
    ensures r.pairs == Longest(RunsFound(Hits(sim, candidates, targets, config.threshold), config))
  {
    NoStageIsEmpty(targets, candidates, config, coarse, sim);
    hide *;
    ReportFields(Longest(RunsFound(Hits(sim, candidates, targets, config.threshold), config)), targets, candidates, config, coarse);
  }

  lemma GapInput(config: Config)
    requires config.tolerance >= 0 && config.maxGap >= 1
    ensures HasHits(GapTargets(config), GapCandidates(config), config, None, DiagonalSim(config.threshold))
    ensures Match(GapTargets(config), GapCandidates(config), config, None, DiagonalSim(config.threshold)).Ok?
  {
    GapHitsAre(config);
    hide Hits, Match;
    assert HasHits(GapTargets(config), GapCandidates(config), config, None, DiagonalSim(config.threshold));
    NoStageIsEmpty(GapTargets(config), GapCandidates(config), config, None, DiagonalSim(config.threshold));
  }

  /** No target gap of any reported run is above maxGap, as the configuration documents it. */
  ghost predicate GapsAsDocumented(config: Config) {
    forall targets, candidates, coarse, sim, r, i |
      IsMatrix(sim, |candidates|, |targets|) && Match(targets, candidates, config, coarse, sim) == Ok(r) && 0 < i < |r.pairs| ::
      r.pairs[i].t - r.pairs[i - 1].t <= config.maxGap
  }

  /** That holds for all inputs exactly when the tolerance is 0. */
  lemma GapsAsDocumentedExactly(config: Config)
    requires config.tolerance >= 0 && config.maxGap >= 1
    ensures GapsAsDocumented(config) <==> config.tolerance == 0
  {
    if config.tolerance == 0 {
      forall targets, candidates, coarse, sim, r, i |
        IsMatrix(sim, |candidates|, |targets|) && Match(targets, candidates, config, coarse, sim) == Ok(r) && 0 < i < |r.pairs|
        ensures r.pairs[i].t - r.pairs[i - 1].t <= config.maxGap
      {
        ReportedHasHits(targets, candidates, config, coarse, sim, r);
        GapBounds(targets, candidates, config, coarse, sim, r, i);
      }
    } else {
      GapInput(config);
      var r := Match(GapTargets(config), GapCandidates(config), config, None, DiagonalSim(config.threshold)).value;
      WidestGap(config, r);
      hide Match;
      assert r.pairs[1].t - r.pairs[1 - 1].t > config.maxGap;
    }
  }

  lemma ReportedHasHits(targets: seq<Segment>, candidates: seq<Segment>, config: Config, coarse: Option<real>, sim: seq<seq<real>>, r: Report)
    requires IsMatrix(sim, |candidates|, |targets|)
    requires Match(targets, candidates, config, coarse, sim) == Ok(r) && r.pairs != []
    ensures HasHits(targets, candidates, config, coarse, sim)
  {
    hide Match;
    if !HasHits(targets, candidates, config, coarse, sim) {
      OtherwiseEmptyOrRefused(targets, candidates, config, coarse, sim);
    }
  }
}
