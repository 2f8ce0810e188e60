/**
 The temporal matcher: hits above a similarity threshold, the most frequent offset, one best
 hit per candidate segment, and the longest ordered run. The similarity matrix (one row per
 candidate segment) and the whole-video similarity are inputs.
 */
module Matcher {
  import opened Wrappers
  import opened Numbers

  datatype Segment = Segment(index: nat, start: real, end: real, dimension: nat)

  datatype Config = Config(threshold: real, coarseThreshold: real, minMatched: int, tolerance: int, maxGap: int)

  /** Candidate index, target index and similarity of a pair of segments. */
  datatype Hit = Hit(c: int, t: int, s: real)

  datatype Side = Target | Candidate

  datatype Problem =
    | InconsistentDimension(side: Side, at: nat)
    | NotIncreasing(side: Side, at: nat, after: nat)
    | DimensionMismatch(target: nat, candidate: nat)
    | NoRuns

  datatype Span = Span(targetStart: real, targetEnd: real, candidateStart: real, candidateEnd: real)

  datatype Report = Report(
    matched: bool,
    score: real,
    duration: real,
    span: Option<Span>,
    count: nat,
    totalTarget: nat,
    totalCandidate: nat,
    offset: Option<real>,
    mean: Option<real>,
    coarse: Option<real>,
    pairs: seq<Hit>)

  predicate Increasing(segments: seq<Segment>) {
    forall i, j :: 0 <= i < j < |segments| ==> segments[i].index < segments[j].index
  }

  // ---------------------------------------------------------------------------
  // The stages
  // ---------------------------------------------------------------------------

  function RowHits(row: seq<real>, c: int, targets: seq<Segment>, threshold: real): seq<Hit>
    requires |row| == |targets|
  {
    if row == [] then []
    else
      var n := |row| - 1;
      RowHits(row[..n], c, targets[..n], threshold)
      + if row[n] >= threshold then [Hit(c, targets[n].index, row[n])] else []
  }

  /** Pairs at or above the threshold, candidate by candidate. */
  function Hits(sim: seq<seq<real>>, candidates: seq<Segment>, targets: seq<Segment>, threshold: real): seq<Hit>
    requires IsMatrix(sim, |candidates|, |targets|)
  {
    if sim == [] then []
    else
      var n := |sim| - 1;
      Hits(sim[..n], candidates[..n], targets, threshold) + RowHits(sim[n], candidates[n].index, targets, threshold)
  }

  function OffsetCount(hits: seq<Hit>, offset: int): nat {
    if hits == [] then 0
    else OffsetCount(hits[..|hits| - 1], offset) + if hits[|hits| - 1].t - hits[|hits| - 1].c == offset then 1 else 0
  }

  /** The most frequent offset, the one met first when several are. */
  function DominantOffset(hits: seq<Hit>, upTo: nat): int
    requires 0 < upTo <= |hits|
  {
    var last := hits[upTo - 1].t - hits[upTo - 1].c;
    if upTo == 1 then last
    else
      var best := DominantOffset(hits, upTo - 1);
      if OffsetCount(hits, last) > OffsetCount(hits, best) then last else best
  }

  predicate Near(h: Hit, offset: int, tolerance: int) {
    -tolerance <= h.t - h.c - offset <= tolerance
  }

  function Consistent(hits: seq<Hit>, offset: int, tolerance: int): seq<Hit> {
    if hits == [] then []
    else
      var n := |hits| - 1;
      Consistent(hits[..n], offset, tolerance) + if Near(hits[n], offset, tolerance) then [hits[n]] else []
  }

  /** Adds a hit to a list ordered by candidate, replacing only a worse one of the same candidate. */
  function Put(list: seq<Hit>, h: Hit): seq<Hit> {
    if list == [] || h.c < list[0].c then [h] + list
    else if h.c == list[0].c then if h.s > list[0].s then [h] + list[1..] else list
    else [list[0]] + Put(list[1..], h)
  }

  function Selected(hits: seq<Hit>): seq<Hit> {
    if hits == [] then [] else Put(Selected(hits[..|hits| - 1]), hits[|hits| - 1])
  }

  /** y may follow x in a run. */
  predicate Linked(x: Hit, y: Hit, maxGap: int) {
    y.c - x.c <= maxGap && y.t >= x.t
  }

  function Last<T>(s: seq<T>): T
    requires s != []
  {
    s[|s| - 1]
  }

  function Runs(ordered: seq<Hit>, maxGap: int): (runs: seq<seq<Hit>>)
    ensures forall i :: 0 <= i < |runs| ==> runs[i] != []
  {
    if ordered == [] then []
    else
      var runs := Runs(ordered[..|ordered| - 1], maxGap);
      var x := Last(ordered);
      if runs == [] || !Linked(Last(Last(runs)), x, maxGap) then runs + [[x]]
      else runs[..|runs| - 1] + [Last(runs) + [x]]
  }

  /** The first of the longest. */
  function Longest(runs: seq<seq<Hit>>): (r: seq<Hit>)
    requires runs != []
    ensures r in runs
  {
    if |runs| == 1 then runs[0]
    else
      var best := Longest(runs[..|runs| - 1]);
      if |Last(runs)| > |best| then Last(runs) else best
  }

  function TotalSimilarity(run: seq<Hit>): real {
    if run == [] then 0.0 else TotalSimilarity(run[..|run| - 1]) + Last(run).s
  }

  function MeanSimilarity(run: seq<Hit>): real
    requires run != []
  {
    TotalSimilarity(run) / |run| as real
  }

  // ---------------------------------------------------------------------------
  // The whole
  // ---------------------------------------------------------------------------

  function Validate(segments: seq<Segment>, side: Side): Option<Problem> {
    if segments == [] then None
    else
      var n := |segments| - 1;
      match Validate(segments[..n], side)
      case Some(problem) => Some(problem)
      case None =>
        if segments[n].dimension != segments[0].dimension then Some(InconsistentDimension(side, segments[n].index))
        else if n > 0 && segments[n].index <= segments[n - 1].index then
          Some(NotIncreasing(side, segments[n].index, segments[n - 1].index))
        else None
  }

  /** The segment with an index; the last one, as in a dict built from the list. */
  function ByIndex(segments: seq<Segment>, index: int): Segment
    requires exists k :: 0 <= k < |segments| && segments[k].index == index
  {
    var n := |segments| - 1;
    if segments[n].index == index then segments[n] else ByIndex(segments[..n], index)
  }

  function Least(values: seq<int>): (v: int)
    requires values != []
    ensures v in values && forall i :: 0 <= i < |values| ==> v <= values[i]
  {
    if |values| == 1 then values[0]
    else
      var v := Least(values[..|values| - 1]);
      if Last(values) < v then Last(values) else v
  }

  function Greatest(values: seq<int>): (v: int)
    requires values != []
    ensures v in values && forall i :: 0 <= i < |values| ==> values[i] <= v
  {
    if |values| == 1 then values[0]
    else
      var v := Greatest(values[..|values| - 1]);
      if Last(values) > v then Last(values) else v
  }

  function EmptyReport(totalTarget: nat, totalCandidate: nat, coarse: Option<real>): Report {
    Report(false, 0.0, 0.0, None, 0, totalTarget, totalCandidate, None, None, coarse, [])
  }

  predicate InSegments(run: seq<Hit>, targets: seq<Segment>, candidates: seq<Segment>) {
    forall h :: h in run ==>
                  && (exists k :: 0 <= k < |candidates| && candidates[k].index == h.c)
                  && (exists k :: 0 <= k < |targets| && targets[k].index == h.t)
  }

  function CandidateIndices(run: seq<Hit>): (cs: seq<int>)
    ensures |cs| == |run| && forall i :: 0 <= i < |run| ==> cs[i] == run[i].c
    ensures forall c :: c in cs ==> exists h :: h in run && h.c == c
  {
    if run == [] then [] else CandidateIndices(run[..|run| - 1]) + [Last(run).c]
  }

  function TargetIndices(run: seq<Hit>): (ts: seq<int>)
    ensures |ts| == |run| && forall i :: 0 <= i < |run| ==> ts[i] == run[i].t
    ensures forall t :: t in ts ==> exists h :: h in run && h.t == t
  {
    if run == [] then [] else TargetIndices(run[..|run| - 1]) + [Last(run).t]
  }

  /** Where the run lies in both videos. */
  function RunSpan(run: seq<Hit>, targets: seq<Segment>, candidates: seq<Segment>): Span
    requires run != [] && InSegments(run, targets, candidates)
  {
    var cs, ts := CandidateIndices(run), TargetIndices(run);
    Span(ByIndex(targets, Least(ts)).start, ByIndex(targets, Greatest(ts)).end,
         ByIndex(candidates, Least(cs)).start, ByIndex(candidates, Greatest(cs)).end)
  }

  function RunReport(run: seq<Hit>, targets: seq<Segment>, candidates: seq<Segment>, config: Config, coarse: Option<real>): Report
    requires run != [] && InSegments(run, targets, candidates)
  {
    var mean := MeanSimilarity(run);
    var span := RunSpan(run, targets, candidates);
    var candidateLength, targetLength := span.candidateEnd - span.candidateStart, span.targetEnd - span.targetStart;
    Report(|run| >= config.minMatched && mean >= config.threshold,
           mean,
           if targetLength < candidateLength then targetLength else candidateLength,
           Some(span),
           |run|, |targets|, |candidates|,
           Some(span.targetStart - span.candidateStart),
           Some(mean), coarse, run)
  }

  /** The runs found among the hits. */
  function RunsFound(hits: seq<Hit>, config: Config): seq<seq<Hit>>
    requires hits != []
  {
    Runs(Selected(Consistent(hits, DominantOffset(hits, |hits|), config.tolerance)), config.maxGap)
  }

  function Match(targets: seq<Segment>, candidates: seq<Segment>, config: Config, coarse: Option<real>, sim: seq<seq<real>>):
    Result<Report, Problem>
    requires IsMatrix(sim, |candidates|, |targets|)
  {
    if targets == [] || candidates == [] then Ok(EmptyReport(|targets|, |candidates|, None))
    else if Validate(targets, Target).Some? then Err(Validate(targets, Target).value)
    else if Validate(candidates, Candidate).Some? then Err(Validate(candidates, Candidate).value)
    else if targets[0].dimension != candidates[0].dimension then
      Err(DimensionMismatch(targets[0].dimension, candidates[0].dimension))
    else if coarse.Some? && coarse.value < config.coarseThreshold then
      Ok(EmptyReport(|targets|, |candidates|, coarse))
    else
      var hits := Hits(sim, candidates, targets, config.threshold);
      if hits == [] then Ok(EmptyReport(|targets|, |candidates|, coarse))
      else
        var runs := RunsFound(hits, config);
        if runs == [] then Err(NoRuns)
        else
          FoundInSegments(targets, candidates, config, sim);
          Ok(RunReport(Longest(runs), targets, candidates, config, coarse))
  }

  // ---------------------------------------------------------------------------
  // Hits
  // ---------------------------------------------------------------------------

  predicate IsHit(h: Hit, sim: seq<seq<real>>, candidates: seq<Segment>, targets: seq<Segment>, threshold: real, i: int, j: int)
    requires IsMatrix(sim, |candidates|, |targets|)
  {
    0 <= i < |candidates| && 0 <= j < |targets|
    && sim[i][j] >= threshold && h == Hit(candidates[i].index, targets[j].index, sim[i][j])
  }

  lemma {:induction false} RowHitAt(row: seq<real>, c: int, targets: seq<Segment>, threshold: real, j: nat)
    requires |row| == |targets| && j < |row| && row[j] >= threshold
    ensures Hit(c, targets[j].index, row[j]) in RowHits(row, c, targets, threshold)
  {
    var n := |row| - 1;
    if j < n {
      RowHitAt(row[..n], c, targets[..n], threshold, j);
    }
  }

  lemma {:induction false} RowHitFrom(row: seq<real>, c: int, targets: seq<Segment>, threshold: real, h: Hit) returns (j: nat)
    requires |row| == |targets| && h in RowHits(row, c, targets, threshold)
    ensures j < |row| && row[j] >= threshold && h == Hit(c, targets[j].index, row[j])
  {
    var n := |row| - 1;
    if h in RowHits(row[..n], c, targets[..n], threshold) {
      j := RowHitFrom(row[..n], c, targets[..n], threshold, h);
    } else {
      j := n;
    }
  }

  lemma {:induction false} HitAt(sim: seq<seq<real>>, candidates: seq<Segment>, targets: seq<Segment>, threshold: real, h: Hit, i: nat, j: nat)
    requires IsMatrix(sim, |candidates|, |targets|) && IsHit(h, sim, candidates, targets, threshold, i, j)
    ensures h in Hits(sim, candidates, targets, threshold)
  {
    var n := |sim| - 1;
    if i < n {
      HitAt(sim[..n], candidates[..n], targets, threshold, h, i, j);
    } else {
      RowHitAt(sim[n], candidates[n].index, targets, threshold, j);
    }
  }

  lemma {:induction false} HitFrom(sim: seq<seq<real>>, candidates: seq<Segment>, targets: seq<Segment>, threshold: real, h: Hit)
    returns (i: nat, j: nat)
    requires IsMatrix(sim, |candidates|, |targets|) && h in Hits(sim, candidates, targets, threshold)
    ensures IsHit(h, sim, candidates, targets, threshold, i, j)
  {
    var n := |sim| - 1;
    if h in Hits(sim[..n], candidates[..n], targets, threshold) {
      i, j := HitFrom(sim[..n], candidates[..n], targets, threshold, h);
    } else {
      i := n;
      j := RowHitFrom(sim[n], candidates[n].index, targets, threshold, h);
    }
  }

  /** The hits are exactly the pairs at or above the threshold. */
  lemma HitsAre(sim: seq<seq<real>>, candidates: seq<Segment>, targets: seq<Segment>, threshold: real, h: Hit)
    requires IsMatrix(sim, |candidates|, |targets|)
    ensures h in Hits(sim, candidates, targets, threshold) <==>
            exists i, j :: IsHit(h, sim, candidates, targets, threshold, i, j)
  {
    if h in Hits(sim, candidates, targets, threshold) {
      var i, j := HitFrom(sim, candidates, targets, threshold, h);
    }
    if i, j :| IsHit(h, sim, candidates, targets, threshold, i, j) {
      HitAt(sim, candidates, targets, threshold, h, i, j);
    }
  }

  /** By candidate, then by target. */
  predicate Before(x: Hit, y: Hit) {
    x.c < y.c || (x.c == y.c && x.t < y.t)
  }

  predicate Ascending(hits: seq<Hit>) {
    forall i, j :: 0 <= i < j < |hits| ==> Before(hits[i], hits[j])
  }

  lemma AscendingAppend(x: seq<Hit>, y: seq<Hit>)
    requires Ascending(x) && Ascending(y)
    requires forall g, h :: g in x && h in y ==> Before(g, h)
    ensures Ascending(x + y)
  {
    var z := x + y;
    forall i, j | 0 <= i < j < |z| ensures Before(z[i], z[j]) {
      if i < |x| && |x| <= j {
        assert x[i] in x && y[j - |x|] in y;
      }
    }
  }

  lemma {:induction false} RowHitsAscend(row: seq<real>, c: int, targets: seq<Segment>, threshold: real)
    requires |row| == |targets| && Increasing(targets)
    ensures Ascending(RowHits(row, c, targets, threshold))
  {
    if row != [] {
      var n := |row| - 1;
      RowHitsAscend(row[..n], c, targets[..n], threshold);
      forall h | h in RowHits(row[..n], c, targets[..n], threshold)
        ensures Before(h, Hit(c, targets[n].index, row[n]))
      {
        var j := RowHitFrom(row[..n], c, targets[..n], threshold, h);
      }
      AscendingAppend(RowHits(row[..n], c, targets[..n], threshold),
                      if row[n] >= threshold then [Hit(c, targets[n].index, row[n])] else []);
    }
  }

  lemma {:induction false} HitsAscend(sim: seq<seq<real>>, candidates: seq<Segment>, targets: seq<Segment>, threshold: real)
    requires IsMatrix(sim, |candidates|, |targets|) && Increasing(candidates) && Increasing(targets)
    ensures Ascending(Hits(sim, candidates, targets, threshold))
  {
    if sim != [] {
      var n := |sim| - 1;
      var earlier := Hits(sim[..n], candidates[..n], targets, threshold);
      var row := RowHits(sim[n], candidates[n].index, targets, threshold);
      HitsAscend(sim[..n], candidates[..n], targets, threshold);
      RowHitsAscend(sim[n], candidates[n].index, targets, threshold);
      forall g, h | g in earlier && h in row ensures Before(g, h) {
        var i, j := HitFrom(sim[..n], candidates[..n], targets, threshold, g);
        var k := RowHitFrom(sim[n], candidates[n].index, targets, threshold, h);
      }
      AscendingAppend(earlier, row);
    }
  }

  // ---------------------------------------------------------------------------
  // The dominant offset and what is consistent with it
  // ---------------------------------------------------------------------------

  function Offset(h: Hit): int {
    h.t - h.c
  }

  /** The dominant offset is that of a hit, none is more frequent, and none as frequent is met before it. */
  lemma {:induction false} DominantIsMostFrequent(hits: seq<Hit>, upTo: nat)
    requires 0 < upTo <= |hits|
    ensures var d := DominantOffset(hits, upTo);
            exists i :: 0 <= i < upTo && Offset(hits[i]) == d
                        && (forall j :: 0 <= j < upTo ==> OffsetCount(hits, Offset(hits[j])) <= OffsetCount(hits, d))
                        && (forall j :: 0 <= j < i ==> OffsetCount(hits, Offset(hits[j])) < OffsetCount(hits, d))
  {
    var d := DominantOffset(hits, upTo);
    if upTo == 1 {
      assert Offset(hits[0]) == d;
    } else {
      DominantIsMostFrequent(hits, upTo - 1);
      var e := DominantOffset(hits, upTo - 1);
      var i :| 0 <= i < upTo - 1 && Offset(hits[i]) == e
               && (forall j :: 0 <= j < upTo - 1 ==> OffsetCount(hits, Offset(hits[j])) <= OffsetCount(hits, e))
               && (forall j :: 0 <= j < i ==> OffsetCount(hits, Offset(hits[j])) < OffsetCount(hits, e));
      var k := if d == e then i else upTo - 1;
      assert Offset(hits[k]) == d;
    }
  }

  lemma {:induction false} OffsetAbsent(hits: seq<Hit>, offset: int)
    requires forall i :: 0 <= i < |hits| ==> Offset(hits[i]) != offset
    ensures OffsetCount(hits, offset) == 0
  {
    if hits != [] {
      OffsetAbsent(hits[..|hits| - 1], offset);
    }
  }

  lemma {:induction false} OffsetPresent(hits: seq<Hit>, k: nat)
    requires k < |hits|
    ensures OffsetCount(hits, Offset(hits[k])) > 0
  {
    if k < |hits| - 1 {
      OffsetPresent(hits[..|hits| - 1], k);
    }
  }

  /** No offset at all is more frequent. */
  lemma DominantBeatsAll(hits: seq<Hit>, offset: int)
    requires hits != []
    ensures OffsetCount(hits, offset) <= OffsetCount(hits, DominantOffset(hits, |hits|))
  {
    DominantIsMostFrequent(hits, |hits|);
    if i :| 0 <= i < |hits| && Offset(hits[i]) == offset {
    } else {
      OffsetAbsent(hits, offset);
    }
  }

  lemma {:induction false} ConsistentAre(hits: seq<Hit>, offset: int, tolerance: int, h: Hit)
    ensures h in Consistent(hits, offset, tolerance) <==> h in hits && Near(h, offset, tolerance)
  {
    if hits != [] {
      var n := |hits| - 1;
      ConsistentAre(hits[..n], offset, tolerance, h);
      assert hits == hits[..n] + [hits[n]];
    }
  }

  lemma {:induction false} ConsistentAscend(hits: seq<Hit>, offset: int, tolerance: int)
    requires Ascending(hits)
    ensures Ascending(Consistent(hits, offset, tolerance))
  {
    if hits != [] {
      var n := |hits| - 1;
      ConsistentAscend(hits[..n], offset, tolerance);
      forall h | h in Consistent(hits[..n], offset, tolerance) ensures Before(h, hits[n]) {
        ConsistentAre(hits[..n], offset, tolerance, h);
      }
      AscendingAppend(Consistent(hits[..n], offset, tolerance), if Near(hits[n], offset, tolerance) then [hits[n]] else []);
    }
  }

  // ---------------------------------------------------------------------------
  // One hit per candidate
  // ---------------------------------------------------------------------------

  predicate ByCandidate(list: seq<Hit>) {
    forall i, j :: 0 <= i < j < |list| ==> list[i].c < list[j].c
  }

  /** h stays out of a list that holds at least as good a hit of its candidate. */
  predicate Beaten(list: seq<Hit>, h: Hit) {
    exists i :: 0 <= i < |list| && list[i].c == h.c && list[i].s >= h.s
  }

  lemma {:induction false} PutOrders(list: seq<Hit>, h: Hit)
    requires ByCandidate(list)
    ensures ByCandidate(Put(list, h))
    ensures Put(list, h) != [] && (Put(list, h)[0] == h || (list != [] && Put(list, h)[0] == list[0]))
  {
    if list != [] && h.c > list[0].c {
      PutOrders(list[1..], h);
      PutAbove(list[1..], h, list[0].c);
    }
  }

  lemma {:induction false} PutHolds(list: seq<Hit>, h: Hit, e: Hit)
    requires ByCandidate(list)
    ensures e in Put(list, h) <==> (e in list && !(e.c == h.c && h.s > e.s)) || (e == h && !Beaten(list, h))
  {
    if list == [] || h.c < list[0].c {
    } else {
      assert list == [list[0]] + list[1..];
      BeatenByRest(list, h);
      if h.c > list[0].c {
        PutHolds(list[1..], h, e);
      }
    }
  }

  lemma BeatenByRest(list: seq<Hit>, h: Hit)
    requires ByCandidate(list) && list != [] && h.c >= list[0].c
    ensures Beaten(list, h) <==> if h.c == list[0].c then list[0].s >= h.s else Beaten(list[1..], h)
  {
    if Beaten(list, h) && h.c > list[0].c {
      var i :| 0 <= i < |list| && list[i].c == h.c && list[i].s >= h.s;
      assert list[1..][i - 1] == list[i];
    }
  }

  lemma {:induction false} PutAbove(list: seq<Hit>, h: Hit, c: int)
    requires ByCandidate(list) && h.c > c && (list == [] || list[0].c > c)
    ensures forall e :: e in Put(list, h) ==> e.c > c
  {
    if list != [] && list[0].c < h.c {
      PutAbove(list[1..], h, c);
    }
  }

  /** The hit at k is the best of its candidate, and the first of those. */
  predicate IsBest(hits: seq<Hit>, k: int) {
    && 0 <= k < |hits|
    && forall j :: 0 <= j < |hits| && hits[j].c == hits[k].c ==>
                     hits[j].s <= hits[k].s && (j < k ==> hits[j].s < hits[k].s)
  }

  lemma {:induction false} SomeBest(hits: seq<Hit>, k: nat) returns (b: nat)
    requires k < |hits|
    ensures IsBest(hits, b) && hits[b].c == hits[k].c
  {
    var n := |hits| - 1;
    var x := hits[n];
    if j :| 0 <= j < n && hits[j].c == x.c && hits[j].s >= x.s {
      b := SomeBest(hits[..n], if k == n then j else k);
      if hits[b].c == x.c {
        assert hits[..n][b].s >= hits[..n][j].s;
      }
      assert IsBest(hits, b);
    } else if hits[k].c == x.c {
      b := n;
    } else {
      b := SomeBest(hits[..n], k);
      assert IsBest(hits, b);
    }
  }

  lemma {:induction false} SelectedByCandidate(hits: seq<Hit>)
    ensures ByCandidate(Selected(hits))
  {
    if hits != [] {
      var n := |hits| - 1;
      SelectedByCandidate(hits[..n]);
      PutOrders(Selected(hits[..n]), hits[n]);
    }
  }

  ghost predicate HasBest(hits: seq<Hit>, e: Hit) {
    exists k :: IsBest(hits, k) && hits[k] == e
  }

  /** What is selected: for every candidate that was hit its first best hit. */
  lemma {:induction false} SelectedAre(hits: seq<Hit>)
    ensures forall e :: e in Selected(hits) <==> HasBest(hits, e)
  {
    if hits != [] {
      var n := |hits| - 1;
      SelectedAre(hits[..n]);
      SelectedByCandidate(hits[..n]);
      forall e ensures e in Selected(hits) <==> HasBest(hits, e) {
        PutHolds(Selected(hits[..n]), hits[n], e);
        BestGrows(hits, e);
      }
    }
  }

  lemma BestGrows(hits: seq<Hit>, e: Hit)
    requires hits != []
    requires var earlier := hits[..|hits| - 1]; forall e :: e in Selected(earlier) <==> HasBest(earlier, e)
    ensures var earlier := hits[..|hits| - 1]; var x := Last(hits);
            HasBest(hits, e) <==> (HasBest(earlier, e) && !(e.c == x.c && x.s > e.s)) || (e == x && !Beaten(Selected(earlier), x))
  {
    var n := |hits| - 1;
    var earlier, x := hits[..n], hits[n];
    BeatenMeans(earlier, x);
    LastIsBest(hits);
    hide Selected, Beaten, IsBest, HasBest;
    if HasBest(hits, e) {
      BestWasBest(hits, e);
    }
    BestStaysBest(hits, e);
  }

  lemma BestWasBest(hits: seq<Hit>, e: Hit)
    requires hits != [] && HasBest(hits, e)
    ensures var earlier := hits[..|hits| - 1]; var x := Last(hits);
            (HasBest(earlier, e) && !(e.c == x.c && x.s > e.s)) || (e == x && IsBest(hits, |hits| - 1))
  {
    var k :| IsBest(hits, k) && hits[k] == e;
    if k < |hits| - 1 {
      BestOfPrefix(hits, k);
    }
  }

  lemma BestStaysBest(hits: seq<Hit>, e: Hit)
    requires hits != []
    ensures var earlier := hits[..|hits| - 1]; var x := Last(hits);
            && (HasBest(earlier, e) && !(e.c == x.c && x.s > e.s) ==> HasBest(hits, e))
            && (e == x && IsBest(hits, |hits| - 1) ==> HasBest(hits, e))
  {
    var earlier, x := hits[..|hits| - 1], Last(hits);
    if HasBest(earlier, e) && !(e.c == x.c && x.s > e.s) {
      var k :| IsBest(earlier, k) && earlier[k] == e;
      BestOfPrefix(hits, k);
    }
  }

  lemma LastIsBest(hits: seq<Hit>)
    requires hits != []
    ensures var earlier := hits[..|hits| - 1]; var x := Last(hits);
            IsBest(hits, |hits| - 1) <==> !exists j :: 0 <= j < |earlier| && earlier[j].c == x.c && earlier[j].s >= x.s
  {
    var earlier := hits[..|hits| - 1];
    assert forall j :: 0 <= j < |hits| - 1 ==> hits[j] == earlier[j];
  }

  lemma BestOfPrefix(hits: seq<Hit>, k: nat)
    requires k < |hits| - 1
    ensures var x := Last(hits);
            IsBest(hits, k) <==> IsBest(hits[..|hits| - 1], k) && !(hits[k].c == x.c && x.s > hits[k].s)
  {
    var earlier := hits[..|hits| - 1];
    assert forall j :: 0 <= j < |hits| - 1 ==> hits[j] == earlier[j];
  }

  lemma BeatenMeans(hits: seq<Hit>, x: Hit)
    requires forall e :: e in Selected(hits) <==> HasBest(hits, e)
    ensures Beaten(Selected(hits), x) <==> exists j :: 0 <= j < |hits| && hits[j].c == x.c && hits[j].s >= x.s
  {
    if j :| 0 <= j < |hits| && hits[j].c == x.c && hits[j].s >= x.s {
      var b := SomeBest(hits, j);
      assert hits[b] in Selected(hits);
    }
    if Beaten(Selected(hits), x) {
      var i :| 0 <= i < |Selected(hits)| && Selected(hits)[i].c == x.c && Selected(hits)[i].s >= x.s;
      assert Selected(hits)[i] in Selected(hits);
    }
  }

  lemma TailHolds(x: seq<Hit>)
    requires ByCandidate(x) && x != []
    ensures forall h :: h in x[1..] <==> h in x && h != x[0]
  {
    assert x == [x[0]] + x[1..];
    forall h | h in x[1..] ensures h != x[0] {
      var i :| 0 <= i < |x| - 1 && x[1..][i] == h;
      assert x[0].c < x[i + 1].c;
    }
  }

  lemma Inhabited(x: seq<Hit>)
    requires x != []
    ensures exists h :: h in x
  {
    assert x[0] in x;
  }

  /** A list in candidate order is determined by what it holds. */
  lemma {:induction false} SameElements(x: seq<Hit>, y: seq<Hit>)
    requires ByCandidate(x) && ByCandidate(y)
    requires forall h :: h in x <==> h in y
    ensures x == y
  {
    if x == [] {
      if y != [] {
        Inhabited(y);
      }
    } else {
      assert x[0] in y;
      assert y[0] in x;
      assert x[0] == y[0];
      assert x == [x[0]] + x[1..] && y == [y[0]] + y[1..];
      TailHolds(x);
      TailHolds(y);
      SameElements(x[1..], y[1..]);
    }
  }

  // ---------------------------------------------------------------------------
  // Runs
  // ---------------------------------------------------------------------------

  function Concat(runs: seq<seq<Hit>>): seq<Hit> {
    if runs == [] then [] else Concat(runs[..|runs| - 1]) + Last(runs)
  }

  /** Each of the hits from i up to j may follow the one before it. */
  predicate Stretch(list: seq<Hit>, i: nat, j: nat, maxGap: int)
    requires i <= j <= |list|
  {
    forall k :: i < k < j ==> Linked(list[k - 1], list[k], maxGap)
  }

  predicate Chained(list: seq<Hit>, maxGap: int) {
    Stretch(list, 0, |list|, maxGap)
  }

  /** No two neighbouring runs could be one. */
  predicate Separate(runs: seq<seq<Hit>>, maxGap: int) {
    forall i :: 0 < i < |runs| && runs[i - 1] != [] && runs[i] != [] ==> !Linked(Last(runs[i - 1]), runs[i][0], maxGap)
  }

  lemma ConcatOnce(runs: seq<seq<Hit>>, r: seq<Hit>)
    ensures Concat(runs + [r]) == Concat(runs) + r
  {
    assert (runs + [r])[..|runs|] == runs;
  }

  lemma ConcatExtended(runs: seq<seq<Hit>>, x: Hit)
    requires runs != []
    ensures Concat(runs[..|runs| - 1] + [Last(runs) + [x]]) == Concat(runs) + [x]
  {
    var head := runs[..|runs| - 1];
    assert runs == head + [Last(runs)];
    hide Concat;
    ConcatOnce(head, Last(runs));
    ConcatOnce(head, Last(runs) + [x]);
    Regroup(Concat(head), Last(runs), x);
  }

  lemma Regroup(a: seq<Hit>, b: seq<Hit>, x: Hit)
    ensures a + (b + [x]) == a + b + [x]
  {
  }

  lemma {:induction false} RunsRebuild(ordered: seq<Hit>, maxGap: int)
    ensures Concat(Runs(ordered, maxGap)) == ordered
  {
    if ordered != [] {
      var front, x := ordered[..|ordered| - 1], Last(ordered);
      assert ordered == front + [x];
      var earlier := Runs(front, maxGap);
      RunsRebuild(front, maxGap);
      hide Concat, Linked;
      ConcatOnce(earlier, [x]);
      if earlier != [] {
        ConcatExtended(earlier, x);
      }
    }
  }

  /** The runs put together are the list, each is chained, and neighbours are separate. */
  lemma {:induction false} RunsPartition(ordered: seq<Hit>, maxGap: int)
    ensures var runs := Runs(ordered, maxGap);
            && Concat(runs) == ordered
            && (forall i :: 0 <= i < |runs| ==> Chained(runs[i], maxGap))
            && Separate(runs, maxGap)
  {
    RunsRebuild(ordered, maxGap);
    hide Concat, Linked;
    if ordered != [] {
      var n := |ordered| - 1;
      RunsPartition(ordered[..n], maxGap);
    }
  }

  /** A run goes on exactly while the candidate gap is at most maxGap and the target does not go back. */
  lemma RunsBreak(ordered: seq<Hit>, maxGap: int, i: nat, k: nat)
    requires i < |Runs(ordered, maxGap)| && k < |Runs(ordered, maxGap)[i]|
    ensures var run := Runs(ordered, maxGap)[i];
            k > 0 ==> run[k].c - run[k - 1].c <= maxGap && run[k].t >= run[k - 1].t
    ensures i > 0 ==> var x, y := Last(Runs(ordered, maxGap)[i - 1]), Runs(ordered, maxGap)[i][0];
                      y.c - x.c > maxGap || y.t < x.t
  {
    RunsPartition(ordered, maxGap);
    var runs := Runs(ordered, maxGap);
    assert Chained(runs[i], maxGap);
    hide Runs, Concat;
    assert k > 0 ==> Linked(runs[i][k - 1], runs[i][k], maxGap);
  }

  predicate IsFirstLongest(runs: seq<seq<Hit>>, k: int) {
    && 0 <= k < |runs|
    && (forall i :: 0 <= i < |runs| ==> |runs[i]| <= |runs[k]|)
    && (forall i :: 0 <= i < k ==> |runs[i]| < |runs[k]|)
  }

  lemma {:induction false} LongestIsFirst(runs: seq<seq<Hit>>) returns (k: nat)
    requires runs != []
    ensures IsFirstLongest(runs, k) && runs[k] == Longest(runs)
  {
    if |runs| == 1 {
      k := 0;
    } else {
      var n := |runs| - 1;
      k := LongestIsFirst(runs[..n]);
      assert forall i :: 0 <= i < n ==> runs[..n][i] == runs[i];
      if |runs[n]| > |runs[k]| {
        k := n;
      }
    }
  }

  /** The last run ends the list, and no longer end of the list is chained. */
  lemma {:induction false} LastRunIsLongestEnd(ordered: seq<Hit>, maxGap: int, i: nat)
    requires i < |ordered| && Stretch(ordered, i, |ordered|, maxGap)
    ensures var runs := Runs(ordered, maxGap);
            runs != [] && Last(Last(runs)) == Last(ordered) && |ordered| - i <= |Last(runs)|
  {
    var n := |ordered| - 1;
    if n > 0 {
      LastRunIsLongestEnd(ordered[..n], maxGap, if i < n then i else n - 1);
    }
  }

  lemma RunsGrow(ordered: seq<Hit>, maxGap: int)
    requires ordered != []
    ensures var earlier := Runs(ordered[..|ordered| - 1], maxGap); var runs := Runs(ordered, maxGap);
            |earlier| <= |runs| && forall i :: 0 <= i < |earlier| ==> |earlier[i]| <= |runs[i]|
  {
  }

  lemma LongestGrows(ordered: seq<Hit>, maxGap: int)
    requires ordered != [] && Runs(ordered[..|ordered| - 1], maxGap) != []
    ensures var earlier := Runs(ordered[..|ordered| - 1], maxGap); var runs := Runs(ordered, maxGap);
            runs != [] && |Longest(earlier)| <= |Longest(runs)|
  {
    var earlier := Runs(ordered[..|ordered| - 1], maxGap);
    var runs := Runs(ordered, maxGap);
    RunsGrow(ordered, maxGap);
    hide Runs;
    var k := LongestIsFirst(earlier);
    var j := LongestIsFirst(runs);
    assert |runs[k]| >= |earlier[k]|;
  }

  /** No chained stretch of the list is longer than the longest run. */
  lemma {:induction false} NoLongerStretch(ordered: seq<Hit>, maxGap: int, i: nat, j: nat)
    requires i < j <= |ordered| && Stretch(ordered, i, j, maxGap)
    ensures Runs(ordered, maxGap) != [] && j - i <= |Longest(Runs(ordered, maxGap))|
  {
    hide Linked, Runs;
    if j == |ordered| {
      LastRunIsLongestEnd(ordered, maxGap, i);
      var k := LongestIsFirst(Runs(ordered, maxGap));
    } else {
      NoLongerStretch(ordered[..|ordered| - 1], maxGap, i, j);
      LongestGrows(ordered, maxGap);
    }
  }

  /** A run is a stretch of the list. */
  lemma {:induction false} RunIsStretch(runs: seq<seq<Hit>>, k: nat) returns (i: nat)
    requires k < |runs|
    ensures i + |runs[k]| <= |Concat(runs)| && Concat(runs)[i..i + |runs[k]|] == runs[k]
  {
    var n := |runs| - 1;
    if k == n {
      i := |Concat(runs[..n])|;
    } else {
      i := RunIsStretch(runs[..n], k);
    }
  }

  // ---------------------------------------------------------------------------
  // Members of the reported run
  // ---------------------------------------------------------------------------

  /** The list the runs are cut from. */
  function Ordered(hits: seq<Hit>, config: Config): seq<Hit>
    requires hits != []
  {
    Selected(Consistent(hits, DominantOffset(hits, |hits|), config.tolerance))
  }

  lemma OrderedAreConsistentHits(hits: seq<Hit>, config: Config, h: Hit)
    requires hits != [] && h in Ordered(hits, config)
    ensures h in hits && Near(h, DominantOffset(hits, |hits|), config.tolerance)
  {
    var d := DominantOffset(hits, |hits|);
    SelectedAre(Consistent(hits, d, config.tolerance));
    ConsistentAre(hits, d, config.tolerance, h);
  }

  predicate StartsAt(run: seq<Hit>, list: seq<Hit>, i: nat) {
    i + |run| <= |list| && list[i..i + |run|] == run
  }

  ghost predicate IsStretchOf(run: seq<Hit>, list: seq<Hit>) {
    exists i: nat :: StartsAt(run, list, i)
  }

  lemma RunInOrdered(hits: seq<Hit>, config: Config, run: seq<Hit>) returns (i: nat)
    requires hits != [] && run in RunsFound(hits, config)
    ensures StartsAt(run, Ordered(hits, config), i)
  {
    var runs := RunsFound(hits, config);
    var k :| 0 <= k < |runs| && runs[k] == run;
    RunsPartition(Ordered(hits, config), config.maxGap);
    i := RunIsStretch(runs, k);
  }

  lemma FoundInSegments(targets: seq<Segment>, candidates: seq<Segment>, config: Config, sim: seq<seq<real>>)
    requires IsMatrix(sim, |candidates|, |targets|)
    requires Hits(sim, candidates, targets, config.threshold) != []
    ensures var runs := RunsFound(Hits(sim, candidates, targets, config.threshold), config);
            runs != [] ==> InSegments(Longest(runs), targets, candidates)
  {
    var hits := Hits(sim, candidates, targets, config.threshold);
    var runs := RunsFound(hits, config);
    if runs != [] {
      var run := Longest(runs);
      var i := RunInOrdered(hits, config, run);
      forall h | h in run
        ensures exists k :: 0 <= k < |candidates| && candidates[k].index == h.c
        ensures exists k :: 0 <= k < |targets| && targets[k].index == h.t
      {
        OrderedAreConsistentHits(hits, config, h);
        HitsAre(sim, candidates, targets, config.threshold, h);
      }
    }
  }

  // ---------------------------------------------------------------------------
  // The matcher
  // ---------------------------------------------------------------------------

  lemma {:induction false} ValidateStops(segments: seq<Segment>, side: Side, k: nat)
    requires k <= |segments| && Validate(segments[..k], side).Some?
    ensures Validate(segments, side) == Validate(segments[..k], side)
  {
    if k < |segments| {
      var n := |segments| - 1;
      assert segments[..n][..k] == segments[..k];
      ValidateStops(segments[..n], side, k);
    } else {
      assert segments[..k] == segments;
    }
  }

  method ValidateSegments(segments: seq<Segment>, side: Side) returns (problem: Option<Problem>)
    ensures problem == Validate(segments, side)
  {
    if segments == [] {
      return None;
    }
    var firstDimension := segments[0].dimension;
    var previous := None;
    var k := 0;
    while k < |segments|
      invariant 0 <= k <= |segments|
      invariant Validate(segments[..k], side) == None
      invariant previous == if k == 0 then None else Some(segments[k - 1].index)
    {
      var segment := segments[k];
      assert segments[..k + 1][..k] == segments[..k];
      if segment.dimension != firstDimension {
        problem := Some(InconsistentDimension(side, segment.index));
        ValidateStops(segments, side, k + 1);
        return;
      }
      if previous.Some? && segment.index <= previous.value {
        problem := Some(NotIncreasing(side, segment.index, previous.value));
        ValidateStops(segments, side, k + 1);
        return;
      }
      previous := Some(segment.index);
      k := k + 1;
    }
    assert segments[..k] == segments;
    return None;
  }

  /** The dict holds, per candidate, the target and similarity that the list holds. */
  ghost predicate Held(list: seq<Hit>, best: map<int, (int, real)>) {
    forall h: Hit :: h in list <==> h.c in best && best[h.c] == (h.t, h.s)
  }

  lemma HeldStep(list: seq<Hit>, best: map<int, (int, real)>, x: Hit)
    requires ByCandidate(list) && Held(list, best)
    ensures Held(Put(list, x), if x.c !in best || x.s > best[x.c].1 then best[x.c := (x.t, x.s)] else best)
  {
    if x.c in best {
      assert Hit(x.c, best[x.c].0, best[x.c].1) in list;
    }
    forall i | 0 <= i < |list| ensures list[i].c in best && best[list[i].c] == (list[i].t, list[i].s) {
      assert list[i] in list;
    }
    assert Beaten(list, x) <==> x.c in best && best[x.c].1 >= x.s;
    var after := if x.c !in best || x.s > best[x.c].1 then best[x.c := (x.t, x.s)] else best;
    forall h: Hit ensures h in Put(list, x) <==> h.c in after && after[h.c] == (h.t, h.s) {
      PutHolds(list, x, h);
    }
  }

  predicate IsLeast(keys: set<int>, c: int) {
    c in keys && forall d :: d in keys ==> c <= d
  }

  lemma {:induction false} LeastUpTo(keys: set<int>, x: int) returns (c: int)
    requires x in keys
    ensures IsLeast(keys, c)
    decreases keys
  {
    if y :| y in keys && y < x {
      c := LeastUpTo(keys - {x}, y);
      assert c <= y < x && forall d :: d in keys ==> d == x || d in keys - {x};
    } else {
      c := x;
    }
  }

  lemma HasLeast(keys: set<int>)
    requires keys != {}
    ensures exists c :: IsLeast(keys, c)
  {
    if forall x :: x !in keys {
      assert false;
    } else {
      var x :| x in keys;
      var c := LeastUpTo(keys, x);
    }
  }

  /** The entries of the dict in the order of their keys. */
  method SortItems(best: map<int, (int, real)>) returns (ordered: seq<Hit>)
    ensures ByCandidate(ordered) && Held(ordered, best)
  {
    ordered := [];
    var keys := best.Keys;
    while keys != {}
      invariant keys <= best.Keys && ByCandidate(ordered)
      invariant forall i, c :: 0 <= i < |ordered| && c in keys ==> ordered[i].c < c
      invariant forall h: Hit :: h in ordered <==> h.c in best && h.c !in keys && best[h.c] == (h.t, h.s)
    {
      HasLeast(keys);
      var c :| c in keys && IsLeast(keys, c);
      ordered := ordered + [Hit(c, best[c].0, best[c].1)];
      keys := keys - {c};
    }
  }

  /** One best target per candidate, ordered by candidate. */
  method SelectBest(consistent: seq<Hit>) returns (ordered: seq<Hit>)
    ensures ordered == Selected(consistent)
  {
    var best: map<int, (int, real)> := map[];
    for k := 0 to |consistent|
      invariant Held(Selected(consistent[..k]), best)
    {
      var h := consistent[k];
      assert consistent[..k + 1][..k] == consistent[..k];
      SelectedByCandidate(consistent[..k]);
      HeldStep(Selected(consistent[..k]), best, h);
      if h.c !in best || h.s > best[h.c].1 {
        best := best[h.c := (h.t, h.s)];
      }
    }
    assert consistent[..|consistent|] == consistent;
    ordered := SortItems(best);
    SelectedByCandidate(consistent);
    SameElements(ordered, Selected(consistent));
  }

  lemma RunsStep(ordered: seq<Hit>, maxGap: int, runs: seq<seq<Hit>>, current: seq<Hit>, x: Hit)
    requires current != [] && runs + [current] == Runs(ordered, maxGap)
    ensures Runs(ordered + [x], maxGap) ==
            if Linked(Last(current), x, maxGap) then runs + [current + [x]] else runs + [current] + [[x]]
  {
    assert (ordered + [x])[..|ordered|] == ordered;
    assert Last(runs + [current]) == current && (runs + [current])[..|runs|] == runs;
  }

  lemma FirstRun(ordered: seq<Hit>, maxGap: int)
    requires ordered != []
    ensures [] + [[ordered[0]]] == Runs(ordered[..1], maxGap)
  {
    var one := ordered[..1];
    assert one[..0] == [] && one == [ordered[0]];
    assert Runs(one[..0], maxGap) == [];
  }

  method ExtractRuns(ordered: seq<Hit>, maxGap: int) returns (runs: seq<seq<Hit>>)
    ensures runs == Runs(ordered, maxGap)
  {
    runs := [];
    var current: seq<Hit> := [];
    var previousC, previousT := 0, 0;
    for k := 0 to |ordered|
      invariant current == [] <==> k == 0
      invariant k == 0 ==> runs == []
      invariant current != [] ==> Last(current).c == previousC && Last(current).t == previousT
      invariant current != [] ==> runs + [current] == Runs(ordered[..k], maxGap)
    {
      var h := ordered[k];
      assert ordered[..k + 1] == ordered[..k] + [h];
      if current == [] {
        FirstRun(ordered, maxGap);
      } else {
        RunsStep(ordered[..k], maxGap, runs, current, h);
      }
      if current != [] && (h.c - previousC > maxGap || h.t < previousT) {
        runs := runs + [current];
        current := [];
      }
      ghost var before := current;
      current := current + [h];
      assert before == [] ==> current == [h];
      previousC, previousT := h.c, h.t;
    }
    assert ordered[..|ordered|] == ordered;
    if current != [] {
      runs := runs + [current];
    }
  }

  method MatchSegments(targets: seq<Segment>, candidates: seq<Segment>, config: Config, coarse: Option<real>, sim: seq<seq<real>>)
    returns (result: Result<Report, Problem>)
    requires IsMatrix(sim, |candidates|, |targets|)
    ensures result == Match(targets, candidates, config, coarse, sim)
  {
    hide Validate, Hits, Consistent, Selected, Runs, Longest, DominantOffset, RunReport, Near;
    if targets == [] || candidates == [] {
      return Ok(EmptyReport(|targets|, |candidates|, None));
    }
    var problem := ValidateSegments(targets, Target);
    if problem.Some? {
      return Err(problem.value);
    }
    problem := ValidateSegments(candidates, Candidate);
    if problem.Some? {
      return Err(problem.value);
    }
    if targets[0].dimension != candidates[0].dimension {
      return Err(DimensionMismatch(targets[0].dimension, candidates[0].dimension));
    }
    if coarse.Some? && coarse.value < config.coarseThreshold {
      return Ok(EmptyReport(|targets|, |candidates|, coarse));
    }
    var hits := Hits(sim, candidates, targets, config.threshold);
    if hits == [] {
      return Ok(EmptyReport(|targets|, |candidates|, coarse));
    }
    var offset := DominantOffset(hits, |hits|);
    var consistent := Consistent(hits, offset, config.tolerance);
    var ordered := SelectBest(consistent);
    var runs := ExtractRuns(ordered, config.maxGap);
    if runs == [] {
      return Err(NoRuns);
    }
    FoundInSegments(targets, candidates, config, sim);
    return Ok(RunReport(Longest(runs), targets, candidates, config, coarse));
  }
}
