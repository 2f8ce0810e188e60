/** The banded alignment of two segment sequences: table, backtracking and result. */
module Dtw {
  import opened WarpingPaths
  import opened Numbers

  datatype Note = EmptySequence | NoPath | EmptyPath | Aligned

  datatype Alignment = Alignment(
    similarity: real,
    targetStart: int,
    targetEnd: int,
    offsetSeconds: real,
    note: Note,
    band: int,
    pathLength: int)

  function Max(a: int, b: int): int {
    if a >= b then a else b
  }

  /** round(x): to the nearest integer, halves to the even one. */
  function RoundHalfEven(x: real): (r: int)
    ensures -0.5 <= r as real - x <= 0.5
    ensures r as real - x == 0.5 || x - r as real == 0.5 ==> r % 2 == 0
  {
    var f := x.Floor;
    var frac := x - f as real;
    if frac < 0.5 then f
    else if frac > 0.5 then f + 1
    else if f % 2 == 0 then f else f + 1
  }

  /** The half width of the band; never too narrow to reach the last cell. */
  function ResolveBand(n: nat, m: nat, ratio: real): (band: nat)
    ensures InBand(n, m, band)
    ensures band as real >= Max(n, m) as real * (if ratio > 0.0 then ratio else 0.0) - 0.5
    ensures band > (if n >= m then n - m else m - n) ==> band as real <= Max(n, m) as real * (if ratio > 0.0 then ratio else 0.0) + 0.5
  {
    var share := if ratio > 0.0 then ratio else 0.0;
    var rounded := RoundHalfEven(Max(n, m) as real * share);
    Max(if n >= m then n - m else m - n, rounded)
  }

  /** The entries a fresh table holds. */
  function Blank(i: nat, j: nat): Ext {
    if i == 0 && j == 0 then Fin(0.0) else Inf
  }

  /** Rows before `i`, and row `i` before column `j`, hold their final entries. */
  ghost predicate Filled(sim: seq<seq<real>>, n: nat, m: nat, band: nat, dp: array2<Ext>, prev: array2<(int, int)>, i: nat, j: nat)
    requires IsMatrix(sim, n, m)
    requires dp.Length0 == prev.Length0 == n + 1 && dp.Length1 == prev.Length1 == m + 1
    reads dp, prev
  {
    forall a: nat, b: nat | a <= n && b <= m ::
      if a < i || (a == i && b < j)
      then dp[a, b] == Dp(sim, n, m, band, a, b) && prev[a, b] == Prev(sim, n, m, band, a, b)
      else dp[a, b] == Blank(a, b) && prev[a, b] == (-1, -1)
  }

  lemma OutsideStaysBlank(sim: seq<seq<real>>, n: nat, m: nat, band: nat, a: nat, b: nat)
    requires IsMatrix(sim, n, m) && a <= n && b <= m
    requires a == 0 || b == 0 || !InBand(a, b, band)
    ensures Dp(sim, n, m, band, a, b) == Blank(a, b) && Prev(sim, n, m, band, a, b) == (-1, -1)
  {
  }

  /** Once the in-band columns of row `i` are written the row is done: the others keep what
      they were created with. */
  lemma RowDone(sim: seq<seq<real>>, n: nat, m: nat, band: nat, dp: array2<Ext>, prev: array2<(int, int)>, i: nat, j: nat)
    requires IsMatrix(sim, n, m) && i >= 1
    requires dp.Length0 == prev.Length0 == n + 1 && dp.Length1 == prev.Length1 == m + 1
    requires Filled(sim, n, m, band, dp, prev, i, j)
    requires forall b: nat :: j <= b <= m ==> b == 0 || !InBand(i, b, band)
    ensures Filled(sim, n, m, band, dp, prev, i + 1, 0)
  {
    hide Dp, Prev;
    forall a: nat, b: nat | a <= n && b <= m && a < i + 1
      ensures dp[a, b] == Dp(sim, n, m, band, a, b) && prev[a, b] == Prev(sim, n, m, band, a, b)
    {
      if a == i && j <= b {
        OutsideStaysBlank(sim, n, m, band, a, b);
      }
    }
  }

  lemma ColumnsBefore(sim: seq<seq<real>>, n: nat, m: nat, band: nat, dp: array2<Ext>, prev: array2<(int, int)>, i: nat, j: nat)
    requires IsMatrix(sim, n, m) && i >= 1
    requires dp.Length0 == prev.Length0 == n + 1 && dp.Length1 == prev.Length1 == m + 1
    requires Filled(sim, n, m, band, dp, prev, i, 0)
    requires forall b: nat :: b < j ==> b == 0 || !InBand(i, b, band)
    ensures Filled(sim, n, m, band, dp, prev, i, j)
  {
    hide Dp, Prev;
    forall b: nat | b < j && b <= m && i <= n
      ensures dp[i, b] == Dp(sim, n, m, band, i, b) && prev[i, b] == Prev(sim, n, m, band, i, b)
    {
      OutsideStaysBlank(sim, n, m, band, i, b);
    }
  }

  /** One in-band entry from the three before it. */
  method FillCell(sim: seq<seq<real>>, n: nat, m: nat, band: nat, dp: array2<Ext>, prev: array2<(int, int)>, i: nat, j: nat)
    requires IsMatrix(sim, n, m) && 1 <= i <= n && 1 <= j <= m && InBand(i, j, band)
    requires dp.Length0 == prev.Length0 == n + 1 && dp.Length1 == prev.Length1 == m + 1
    requires Filled(sim, n, m, band, dp, prev, i, j)
    modifies dp, prev
    ensures Filled(sim, n, m, band, dp, prev, i, j + 1)
  {
    hide Dp, Prev;
    var x, y, z := dp[i - 1, j], dp[i, j - 1], dp[i - 1, j - 1];
    Recurrence(sim, n, m, band, i, j, x, y, z);
    var k := FirstMin(x, y, z);
    var best, from :=
      if k == 0 then x else if k == 1 then y else z,
      if k == 0 then (i - 1, j) else if k == 1 then (i, j - 1) else (i - 1, j - 1);
    dp[i, j] := Plus(Cost(sim, i - 1, j - 1), best);
    prev[i, j] := from;
  }

  /** The table and the predecessors, row by row inside the band. */
  method FillTable(sim: seq<seq<real>>, n: nat, m: nat, band: nat) returns (dp: array2<Ext>, prev: array2<(int, int)>)
    requires IsMatrix(sim, n, m)
    ensures fresh(dp) && fresh(prev)
    ensures dp.Length0 == prev.Length0 == n + 1 && dp.Length1 == prev.Length1 == m + 1
    ensures forall a: nat, b: nat | a <= n && b <= m ::
              dp[a, b] == Dp(sim, n, m, band, a, b) && prev[a, b] == Prev(sim, n, m, band, a, b)
  {
    hide Dp, Prev;
    dp := new Ext[n + 1, m + 1]((a, b) => Inf);
    prev := new (int, int)[n + 1, m + 1]((a, b) => (-1, -1));
    dp[0, 0] := Fin(0.0);
    forall b: nat | b <= m
      ensures Dp(sim, n, m, band, 0, b) == Blank(0, b) && Prev(sim, n, m, band, 0, b) == (-1, -1)
    {
      OutsideStaysBlank(sim, n, m, band, 0, b);
    }
    var i := 1;
    while i < n + 1
      invariant 1 <= i <= n + 1
      invariant Filled(sim, n, m, band, dp, prev, i, 0)
    {
      hide Filled;
      var low := Max(1, i - band);
      var high := if m <= i + band then m else i + band;
      ColumnsBefore(sim, n, m, band, dp, prev, i, low);
      var j := low;
      while j <= high
        invariant low <= j && (j <= high + 1 || j == low)
        invariant Filled(sim, n, m, band, dp, prev, i, j)
      {
        FillCell(sim, n, m, band, dp, prev, i, j);
        j := j + 1;
      }
      RowDone(sim, n, m, band, dp, prev, i, j);
      i := i + 1;
    }
  }

  /** What has been collected on the way back, standing at cell (i, j) of the table: the rest
      of a path whose cost is what the table lost since (n, m). */
  ghost predicate Tracing(sim: seq<seq<real>>, n: nat, m: nat, band: nat, q: seq<Cell>, i: int, j: int)
    requires IsMatrix(sim, n, m)
  {
    && 1 <= i <= n && 1 <= j <= m && InBand(i, j, band)
    && Dp(sim, n, m, band, i, j).Fin? && Dp(sim, n, m, band, n, m).Fin?
    && (if q == [] then (i, j) == (n, m)
        else
          && IsBackPath(q, n, m, band, (n - 1, m - 1), q[|q| - 1])
          && UnitStep((i - 1, j - 1), q[|q| - 1])
          && BackCost(sim, n, m, q) + Dp(sim, n, m, band, i, j).value == Dp(sim, n, m, band, n, m).value)
  }

  /** The walk has reached the start. */
  ghost predicate Traced(sim: seq<seq<real>>, n: nat, m: nat, band: nat, q: seq<Cell>)
    requires IsMatrix(sim, n, m) && n >= 1 && m >= 1
  {
    IsBackPath(q, n, m, band, (n - 1, m - 1), (0, 0)) && Dp(sim, n, m, band, n, m) == Fin(BackCost(sim, n, m, q))
  }

  /** Collecting the cell before the last one collected. */
  lemma BackExtend(sim: seq<seq<real>>, n: nat, m: nat, band: nat, q: seq<Cell>, end: Cell, cell: Cell)
    requires IsMatrix(sim, n, m)
    requires 0 <= cell.0 < n && 0 <= cell.1 < m && InBand(cell.0, cell.1, band)
    requires if q == [] then cell == end else IsBackPath(q, n, m, band, end, q[|q| - 1]) && UnitStep(cell, q[|q| - 1])
    ensures IsBackPath(q + [cell], n, m, band, end, cell)
    ensures Inside(q, n, m)
    ensures BackCost(sim, n, m, q + [cell]) == BackCost(sim, n, m, q) + Cost(sim, cell.0, cell.1)
  {
    var q' := q + [cell];
    assert q'[..|q|] == q;
    forall k | 0 < k < |q'| ensures UnitStep(q'[k], q'[k - 1]) {
      if k == |q| {
        assert q'[k - 1] == q[|q| - 1];
      }
    }
  }

  lemma TraceStep(sim: seq<seq<real>>, n: nat, m: nat, band: nat, q: seq<Cell>, i: int, j: int)
    requires IsMatrix(sim, n, m) && Tracing(sim, n, m, band, q, i, j)
    ensures var (a, b) := Prev(sim, n, m, band, i, j);
            var q' := q + [(i - 1, j - 1)];
            if i == 1 && j == 1 then (a, b) == (0, 0) && Traced(sim, n, m, band, q')
            else a + b < i + j && Tracing(sim, n, m, band, q', a, b)
  {
    hide Dp, Prev, IsBackPath, BackCost;
    var cell := (i - 1, j - 1);
    BackExtend(sim, n, m, band, q, (n - 1, m - 1), cell);
    if q == [] {
      NoCost(sim, n, m);
    }
    if i == 1 && j == 1 {
      Corner(sim, n, m, band);
    } else {
      PrevIsOneStepBack(sim, n, m, band, i, j);
    }
  }

  lemma NoCost(sim: seq<seq<real>>, n: nat, m: nat)
    requires IsMatrix(sim, n, m)
    ensures BackCost(sim, n, m, []) == 0.0
  {
  }

  /** From the last cell back along the predecessors. The walk never breaks off: it ends in (0, 0). */
  method Backtrack(sim: seq<seq<real>>, n: nat, m: nat, band: nat, prev: array2<(int, int)>) returns (path: seq<Cell>)
    requires IsMatrix(sim, n, m) && n >= 1 && m >= 1 && InBand(n, m, band)
    requires prev.Length0 == n + 1 && prev.Length1 == m + 1
    requires forall a: nat, b: nat | a <= n && b <= m :: prev[a, b] == Prev(sim, n, m, band, a, b)
    ensures IsPath(path, n, m, band, (n - 1, m - 1))
    ensures Dp(sim, n, m, band, n, m) == Fin(PathCost(sim, n, m, path))
  {
    InBandIsFinite(sim, n, m, band, n, m);
    hide Dp, Prev, Traced;
    var collected: seq<Cell> := [];
    var i, j := n, m;
    while i > 0 && j > 0
      invariant 0 <= i <= n && 0 <= j <= m
      invariant if i > 0 && j > 0 then Tracing(sim, n, m, band, collected, i, j) else Traced(sim, n, m, band, collected)
      decreases i + j
    {
      TraceStep(sim, n, m, band, collected, i, j);
      collected := collected + [(i - 1, j - 1)];
      var (pi, pj) := prev[i, j];
      if pi < 0 || pj < 0 {
        assert false;
        break;
      }
      i, j := pi, pj;
    }
    path := Reverse(collected);
    TracedIsPath(sim, n, m, band, collected);
  }

  lemma TracedIsPath(sim: seq<seq<real>>, n: nat, m: nat, band: nat, q: seq<Cell>)
    requires IsMatrix(sim, n, m) && n >= 1 && m >= 1 && Traced(sim, n, m, band, q)
    ensures IsPath(Reverse(q), n, m, band, (n - 1, m - 1))
    ensures Dp(sim, n, m, band, n, m) == Fin(PathCost(sim, n, m, Reverse(q)))
  {
    ReverseIsPath(sim, n, m, band, q, (n - 1, m - 1));
  }

  /** The least and the greatest first component. */
  method TargetRange(path: seq<Cell>) returns (start: int, end: int)
    requires |path| > 0
    ensures VisitsRow(path, start) && VisitsRow(path, end)
    ensures forall k :: 0 <= k < |path| ==> start <= path[k].0 <= end
  {
    start, end := path[0].0, path[0].0;
    var k := 1;
    while k < |path|
      invariant 1 <= k <= |path|
      invariant VisitsRow(path, start) && VisitsRow(path, end)
      invariant forall l :: 0 <= l < k ==> start <= path[l].0 <= end
    {
      if path[k].0 < start {
        start := path[k].0;
      }
      if path[k].0 > end {
        end := path[k].0;
      }
      k := k + 1;
    }
  }

  /**
   The alignment follows a path that falls least short of full similarity among all in the band, and
   reports the mean similarity along it. Such a path always exists, so neither of the two failure
   branches is ever taken; the reported target range is always the whole target and the offset zero.
   */
  method AlignSegmentsDtw(sim: seq<seq<real>>, n: nat, m: nat, segmentSeconds: real, bandRatio: real)
    returns (r: Alignment, ghost path: seq<Cell>)
    requires IsMatrix(sim, n, m)
    ensures (n == 0 || m == 0) ==> r == Alignment(0.0, 0, 0, 0.0, EmptySequence, 0, 0)
    ensures n > 0 && m > 0 ==>
              && r.note == Aligned && r.band == ResolveBand(n, m, bandRatio)
              && IsMostSimilar(sim, n, m, ResolveBand(n, m, bandRatio), path, (n - 1, m - 1))
              && r.pathLength == |path| > 0
              && r.similarity == Clip01(Mean(Along(sim, n, m, path)))
              && r.targetStart == 0 && r.targetEnd == n - 1 && r.offsetSeconds == 0.0
    ensures n == m > 0 && (forall i, j :: 0 <= i < n && 0 <= j < n ==> sim[i][j] <= 1.0) && (forall i :: 0 <= i < n ==> sim[i][i] == 1.0) ==>
              r.similarity == 1.0
  {
    hide Dp, Prev, IsPath, PathCost;
    path := [];
    if n == 0 || m == 0 {
      return Alignment(0.0, 0, 0, 0.0, EmptySequence, 0, 0), [];
    }
    var band := ResolveBand(n, m, bandRatio);
    var dp, prev := FillTable(sim, n, m, band);
    InBandIsFinite(sim, n, m, band, n, m);
    if dp[n, m].Inf? {
      assert false;
      return Alignment(0.0, 0, 0, 0.0, NoPath, band, 0), [];
    }
    var p := Backtrack(sim, n, m, band, prev);
    TracedPath(sim, n, m, band, p);
    if p == [] {
      assert false;
      return Alignment(0.0, 0, 0, 0.0, EmptyPath, band, 0), [];
    }
    path := p;
    var length := Max(1, |p|);
    var average := dp[n, m].value / length as real;
    var start, end := TargetRange(p);
    RangeIsWhole(p, n, m, band, start, end);
    CheapestIsMostSimilar(sim, n, m, band, p, (n - 1, m - 1));
    AverageIsMean(sim, n, m, p);
    if n == m && (forall i, j :: 0 <= i < n && 0 <= j < n ==> sim[i][j] <= 1.0) && (forall i :: 0 <= i < n ==> sim[i][i] == 1.0) {
      EqualSequences(sim, n, band, p);
    }
    r := Alignment(Clip01(1.0 - average), start, end, start as real * segmentSeconds, Aligned, band, |p|);
  }

  lemma AverageIsMean(sim: seq<seq<real>>, n: nat, m: nat, p: seq<Cell>)
    requires IsMatrix(sim, n, m) && Inside(p, n, m) && |p| > 0
    ensures 1.0 - PathCost(sim, n, m, p) / |p| as real == Mean(Along(sim, n, m, p))
  {
    CostIsShortfall(sim, n, m, p);
    hide PathCost, Along, Sum;
    Complement(Sum(Along(sim, n, m, p)), |p| as real);
  }

  lemma Complement(s: real, l: real)
    requires l > 0.0
    ensures 1.0 - (l - s) / l == s / l
  {
    var a, b := (l - s) / l, s / l;
    assert a * l == l - s && b * l == s;
    assert (1.0 - a - b) * l == l - a * l - b * l;
    SameSign(1.0 - a - b, l);
    assert (a + b - 1.0) * l == a * l + b * l - l;
    SameSign(a + b - 1.0, l);
  }

  lemma TracedPath(sim: seq<seq<real>>, n: nat, m: nat, band: nat, p: seq<Cell>)
    requires IsMatrix(sim, n, m) && n >= 1 && m >= 1 && IsPath(p, n, m, band, (n - 1, m - 1))
    requires Dp(sim, n, m, band, n, m) == Fin(PathCost(sim, n, m, p))
    ensures |p| > 0 && Inside(p, n, m) && IsCheapest(sim, n, m, band, p, (n - 1, m - 1))
  {
    hide Dp;
    forall q | IsPath(q, n, m, band, (n - 1, m - 1)) ensures PathCost(sim, n, m, p) <= PathCost(sim, n, m, q) {
      TableIsLowerBound(sim, n, m, band, q, (n - 1, m - 1));
    }
  }

  /** The first components of a path to the last cell run from 0 to n - 1. */
  lemma RangeIsWhole(p: seq<Cell>, n: nat, m: nat, band: nat, start: int, end: int)
    requires n >= 1 && m >= 1 && IsPath(p, n, m, band, (n - 1, m - 1))
    requires VisitsRow(p, start) && VisitsRow(p, end)
    requires forall k :: 0 <= k < |p| ==> start <= p[k].0 <= end
    ensures start == 0 && end == n - 1
  {
    PathCovers(p, n, m, band, (n - 1, m - 1));
    assert p[0].0 == 0 && p[|p| - 1].0 == n - 1;
  }

  /** With similarities between 0 and 1 the clip does nothing, the path is at least as long as
      the longer side and shorter than both together, and it covers every segment of both. */
  lemma AlignmentShape(sim: seq<seq<real>>, n: nat, m: nat, band: nat, path: seq<Cell>)
    requires IsMatrix(sim, n, m) && n >= 1 && m >= 1 && Unit(sim, n, m)
    requires IsPath(path, n, m, band, (n - 1, m - 1))
    ensures var mean := Mean(Along(sim, n, m, path)); 0.0 <= mean <= 1.0 && Clip01(mean) == mean
    ensures Max(n, m) <= |path| <= n + m - 1
    ensures forall i :: 0 <= i < n ==> VisitsRow(path, i)
    ensures forall j :: 0 <= j < m ==> VisitsColumn(path, j)
  {
    CostWithinLength(sim, n, m, path);
    PathLength(path, n, m, band, (n - 1, m - 1));
    PathCovers(path, n, m, band, (n - 1, m - 1));
    var cost, length := PathCost(sim, n, m, path), |path| as real;
    QuotientWithin(cost, length);
    AverageIsMean(sim, n, m, path);
  }

  lemma QuotientWithin(a: real, b: real)
    requires b > 0.0 && 0.0 <= a <= b
    ensures 0.0 <= a / b <= 1.0
  {
    assert a / b * b == a;
    NotNegative(a / b, b);
    NotNegative(1.0 - a / b, b);
  }

  lemma NotNegative(x: real, b: real)
    requires b > 0.0 && x * b >= 0.0
    ensures x >= 0.0
  {
  }

  /** A wider band never makes the cheapest alignment more expensive. */
  lemma WiderBandIsNoWorse(sim: seq<seq<real>>, n: nat, m: nat, narrow: nat, wide: nat)
    requires IsMatrix(sim, n, m) && n >= 1 && m >= 1
    requires narrow <= wide && InBand(n, m, narrow)
    ensures Dp(sim, n, m, narrow, n, m).Fin? && Dp(sim, n, m, wide, n, m).Fin?
    ensures Dp(sim, n, m, wide, n, m).value <= Dp(sim, n, m, narrow, n, m).value
  {
    hide Dp;
    var p := TableIsAttained(sim, n, m, narrow, n, m);
    assert IsPath(p, n, m, wide, (n - 1, m - 1));
    TableIsLowerBound(sim, n, m, wide, p, (n - 1, m - 1));
  }
}
