/**
 Dynamic time warping as a recurrence and as what it is meant to minimise: the total cost
 over all monotone unit-step paths that stay inside the Sakoe-Chiba band.

 Table cells are numbered from 1 as in the code; path cells from 0.
 */
module WarpingPaths {
  import opened Numbers

  /** A table entry: infinity or a number. */
  datatype Ext = Inf | Fin(value: real)

  predicate Less(a: Ext, b: Ext) {
    a.Fin? && (b.Inf? || a.value < b.value)
  }

  function Plus(cost: real, a: Ext): Ext {
    match a
    case Inf => Inf
    case Fin(v) => Fin(cost + v)
  }

  function Cost(sim: seq<seq<real>>, i: nat, j: nat): real
    requires i < |sim| && j < |sim[i]|
  {
    1.0 - sim[i][j]
  }

  predicate InBand(i: int, j: int, band: nat) {
    i - j <= band && j - i <= band
  }

  /** The first of three entries that no other is below. */
  function FirstMin(a: Ext, b: Ext, c: Ext): (k: nat)
    ensures k < 3
    ensures k == 0 <==> !Less(b, a) && !Less(c, a)
    ensures k == 1 <==> Less(b, a) && !Less(c, b)
  {
    var k := if Less(b, a) then 1 else 0;
    if Less(c, if k == 0 then a else b) then 2 else k
  }

  function Pick(a: Ext, b: Ext, c: Ext): Ext {
    var k := FirstMin(a, b, c);
    if k == 0 then a else if k == 1 then b else c
  }

  /** The entry of the table at (i, j). */
  function Dp(sim: seq<seq<real>>, n: nat, m: nat, band: nat, i: nat, j: nat): Ext
    requires IsMatrix(sim, n, m) && i <= n && j <= m
    decreases i + j
  {
    if i == 0 && j == 0 then Fin(0.0)
    else if i == 0 || j == 0 || !InBand(i, j, band) then Inf
    else
      Plus(Cost(sim, i - 1, j - 1),
           Pick(Dp(sim, n, m, band, i - 1, j), Dp(sim, n, m, band, i, j - 1), Dp(sim, n, m, band, i - 1, j - 1)))
  }

  /** The cell the entry at (i, j) was reached from, (-1, -1) where nothing was written. */
  function Prev(sim: seq<seq<real>>, n: nat, m: nat, band: nat, i: nat, j: nat): (int, int)
    requires IsMatrix(sim, n, m) && i <= n && j <= m
  {
    if i == 0 || j == 0 || !InBand(i, j, band) then (-1, -1)
    else
      var k := FirstMin(Dp(sim, n, m, band, i - 1, j), Dp(sim, n, m, band, i, j - 1), Dp(sim, n, m, band, i - 1, j - 1));
      if k == 0 then (i - 1, j) else if k == 1 then (i, j - 1) else (i - 1, j - 1)
  }

  /** Every cell inside the band is reached, whatever the band. */
  lemma {:induction false} InBandIsFinite(sim: seq<seq<real>>, n: nat, m: nat, band: nat, i: nat, j: nat)
    requires IsMatrix(sim, n, m) && 1 <= i <= n && 1 <= j <= m && InBand(i, j, band)
    ensures Dp(sim, n, m, band, i, j).Fin?
    decreases i + j
  {
    if i == 1 && j == 1 {
    } else if i > j {
      InBandIsFinite(sim, n, m, band, i - 1, j);
    } else if i < j {
      InBandIsFinite(sim, n, m, band, i, j - 1);
    } else {
      InBandIsFinite(sim, n, m, band, i - 1, j - 1);
    }
  }

  // ---------------------------------------------------------------------------
  // Paths
  // ---------------------------------------------------------------------------

  type Cell = (int, int)

  predicate UnitStep(a: Cell, b: Cell) {
    b == (a.0 + 1, a.1) || b == (a.0, a.1 + 1) || b == (a.0 + 1, a.1 + 1)
  }

  /** A warping path from the first cell to `end` inside an n by m table and the band. */
  ghost predicate IsPath(p: seq<Cell>, n: nat, m: nat, band: nat, end: Cell) {
    && |p| > 0 && p[0] == (0, 0) && p[|p| - 1] == end
    && (forall k :: 0 <= k < |p| ==> 0 <= p[k].0 < n && 0 <= p[k].1 < m && InBand(p[k].0, p[k].1, band))
    && (forall k :: 0 < k < |p| ==> UnitStep(p[k - 1], p[k]))
  }

  ghost predicate Inside(p: seq<Cell>, n: nat, m: nat) {
    forall k :: 0 <= k < |p| ==> 0 <= p[k].0 < n && 0 <= p[k].1 < m
  }

  ghost function PathCost(sim: seq<seq<real>>, n: nat, m: nat, p: seq<Cell>): real
    requires IsMatrix(sim, n, m) && Inside(p, n, m)
  {
    if |p| == 0 then 0.0
    else PathCost(sim, n, m, p[..|p| - 1]) + Cost(sim, p[|p| - 1].0, p[|p| - 1].1)
  }

  lemma PathFront(p: seq<Cell>, n: nat, m: nat, band: nat, end: Cell)
    requires IsPath(p, n, m, band, end) && |p| > 1
    ensures IsPath(p[..|p| - 1], n, m, band, p[|p| - 2])
    ensures UnitStep(p[|p| - 2], end)
    ensures p[|p| - 2].0 + 1 == end.0 || p[|p| - 2].1 + 1 == end.1
  {
  }

  /** No path is cheaper than the table entry of its end. */
  lemma {:induction false} TableIsLowerBound(sim: seq<seq<real>>, n: nat, m: nat, band: nat, p: seq<Cell>, end: Cell)
    requires IsMatrix(sim, n, m) && IsPath(p, n, m, band, end)
    ensures Dp(sim, n, m, band, end.0 + 1, end.1 + 1).Fin?
    ensures Dp(sim, n, m, band, end.0 + 1, end.1 + 1).value <= PathCost(sim, n, m, p)
    decreases |p|
  {
    var i, j := end.0 + 1, end.1 + 1;
    if |p| == 1 {
      assert p[..0] == [];
      assert PathCost(sim, n, m, p) == PathCost(sim, n, m, []) + Cost(sim, 0, 0);
      Corner(sim, n, m, band);
    } else {
      PathFront(p, n, m, band, end);
      var before := p[|p| - 2];
      TableIsLowerBound(sim, n, m, band, p[..|p| - 1], before);
      var a, b, c := Dp(sim, n, m, band, i - 1, j), Dp(sim, n, m, band, i, j - 1), Dp(sim, n, m, band, i - 1, j - 1);
      PickIsLeast(a, b, c, Dp(sim, n, m, band, before.0 + 1, before.1 + 1));
    }
  }

  lemma PickIsLeast(a: Ext, b: Ext, c: Ext, x: Ext)
    requires x == a || x == b || x == c
    requires x.Fin?
    ensures Pick(a, b, c).Fin? && Pick(a, b, c).value <= x.value
  {
  }

  /** Adding a cell at the end. */
  lemma PathExtend(sim: seq<seq<real>>, n: nat, m: nat, band: nat, p: seq<Cell>, mid: Cell, end: Cell)
    requires IsMatrix(sim, n, m) && IsPath(p, n, m, band, mid)
    requires UnitStep(mid, end) && 0 <= end.0 < n && 0 <= end.1 < m && InBand(end.0, end.1, band)
    ensures IsPath(p + [end], n, m, band, end)
    ensures PathCost(sim, n, m, p + [end]) == PathCost(sim, n, m, p) + Cost(sim, end.0, end.1)
  {
    assert (p + [end])[..|p|] == p;
  }

  lemma Corner(sim: seq<seq<real>>, n: nat, m: nat, band: nat)
    requires IsMatrix(sim, n, m) && 1 <= n && 1 <= m
    ensures Dp(sim, n, m, band, 1, 1) == Fin(Cost(sim, 0, 0))
    ensures Prev(sim, n, m, band, 1, 1) == (0, 0)
  {
    assert Dp(sim, n, m, band, 0, 1) == Inf && Dp(sim, n, m, band, 1, 0) == Inf && Dp(sim, n, m, band, 0, 0) == Fin(0.0);
  }

  lemma EdgeIsInfinite(sim: seq<seq<real>>, n: nat, m: nat, band: nat, i: nat, j: nat)
    requires IsMatrix(sim, n, m) && i <= n && j <= m
    requires Dp(sim, n, m, band, i, j).Fin?
    ensures (i == 0 && j == 0) || (i >= 1 && j >= 1 && InBand(i, j, band))
  {
  }

  /** Where a finite entry came from: the start, or a finite in-band neighbour one step back. */
  lemma PrevIsOneStepBack(sim: seq<seq<real>>, n: nat, m: nat, band: nat, i: nat, j: nat)
    requires IsMatrix(sim, n, m) && 1 <= i <= n && 1 <= j <= m && InBand(i, j, band)
    requires i > 1 || j > 1
    ensures var (a, b) := Prev(sim, n, m, band, i, j);
            && 1 <= a <= n && 1 <= b <= m && InBand(a, b, band)
            && UnitStep((a, b), (i, j))
            && Dp(sim, n, m, band, a, b).Fin?
            && Dp(sim, n, m, band, i, j) == Fin(Cost(sim, i - 1, j - 1) + Dp(sim, n, m, band, a, b).value)
  {
    hide Dp, Prev;
    InBandIsFinite(sim, n, m, band, i, j);
    var x, y, z := Dp(sim, n, m, band, i - 1, j), Dp(sim, n, m, band, i, j - 1), Dp(sim, n, m, band, i - 1, j - 1);
    Recurrence(sim, n, m, band, i, j, x, y, z);
    PickFinite(x, y, z, Cost(sim, i - 1, j - 1));
    var k, cost, picked := FirstMin(x, y, z), Cost(sim, i - 1, j - 1), Pick(x, y, z);
    hide Pick, Plus, Cost, FirstMin;
    assert picked.Fin? && Dp(sim, n, m, band, i, j) == Fin(cost + picked.value);
    if k == 0 {
      EdgeIsInfinite(sim, n, m, band, i - 1, j);
    } else if k == 1 {
      EdgeIsInfinite(sim, n, m, band, i, j - 1);
    } else {
      EdgeIsInfinite(sim, n, m, band, i - 1, j - 1);
    }
  }

  lemma PickFinite(x: Ext, y: Ext, z: Ext, cost: real)
    ensures var k := FirstMin(x, y, z); Pick(x, y, z) == if k == 0 then x else if k == 1 then y else z
    ensures Plus(cost, Pick(x, y, z)).Fin? ==> Pick(x, y, z).Fin? && Plus(cost, Pick(x, y, z)) == Fin(cost + Pick(x, y, z).value)
  {
  }

  /** The entry and its predecessor in terms of the three entries before it. */
  lemma Recurrence(sim: seq<seq<real>>, n: nat, m: nat, band: nat, i: nat, j: nat, x: Ext, y: Ext, z: Ext)
    requires IsMatrix(sim, n, m) && 1 <= i <= n && 1 <= j <= m && InBand(i, j, band)
    requires x == Dp(sim, n, m, band, i - 1, j) && y == Dp(sim, n, m, band, i, j - 1) && z == Dp(sim, n, m, band, i - 1, j - 1)
    ensures Dp(sim, n, m, band, i, j) == Plus(Cost(sim, i - 1, j - 1), Pick(x, y, z))
    ensures var k := FirstMin(x, y, z);
            Prev(sim, n, m, band, i, j) == (if k == 0 then (i - 1, j) else if k == 1 then (i, j - 1) else (i - 1, j - 1))
  {
  }

  /** A path from `start` to `end` read backwards, as the code collects it. */
  ghost predicate IsBackPath(q: seq<Cell>, n: nat, m: nat, band: nat, end: Cell, start: Cell) {
    && |q| > 0 && q[0] == end && q[|q| - 1] == start
    && (forall k :: 0 <= k < |q| ==> 0 <= q[k].0 < n && 0 <= q[k].1 < m && InBand(q[k].0, q[k].1, band))
    && (forall k :: 0 < k < |q| ==> UnitStep(q[k], q[k - 1]))
  }

  function Reverse(q: seq<Cell>): seq<Cell> {
    if |q| == 0 then [] else [q[|q| - 1]] + Reverse(q[..|q| - 1])
  }

  lemma {:induction false} ReverseAt(q: seq<Cell>, k: nat)
    requires k < |q|
    ensures |Reverse(q)| == |q| && Reverse(q)[k] == q[|q| - 1 - k]
  {
    if |q| > 1 {
      ReverseAt(q[..|q| - 1], if k > 0 then k - 1 else 0);
    }
  }

  ghost function BackCost(sim: seq<seq<real>>, n: nat, m: nat, q: seq<Cell>): real
    requires IsMatrix(sim, n, m) && Inside(q, n, m)
  {
    if |q| == 0 then 0.0
    else BackCost(sim, n, m, q[..|q| - 1]) + Cost(sim, q[|q| - 1].0, q[|q| - 1].1)
  }

  lemma {:induction false} CostFront(sim: seq<seq<real>>, n: nat, m: nat, x: Cell, p: seq<Cell>)
    requires IsMatrix(sim, n, m) && Inside(p, n, m) && 0 <= x.0 < n && 0 <= x.1 < m
    ensures Inside([x] + p, n, m) && PathCost(sim, n, m, [x] + p) == Cost(sim, x.0, x.1) + PathCost(sim, n, m, p)
    decreases |p|
  {
    if |p| == 0 {
      assert [x] + p == [x] && [x][..0] == [];
    } else {
      CostFront(sim, n, m, x, p[..|p| - 1]);
      assert ([x] + p)[..|p|] == [x] + p[..|p| - 1];
    }
  }

  lemma {:induction false} ReverseCost(sim: seq<seq<real>>, n: nat, m: nat, q: seq<Cell>)
    requires IsMatrix(sim, n, m) && Inside(q, n, m)
    ensures Inside(Reverse(q), n, m) && PathCost(sim, n, m, Reverse(q)) == BackCost(sim, n, m, q)
  {
    if |q| > 0 {
      ReverseCost(sim, n, m, q[..|q| - 1]);
      CostFront(sim, n, m, q[|q| - 1], Reverse(q[..|q| - 1]));
    }
  }

  /** Reversing what was collected gives a path of the same length and cost. */
  lemma ReverseIsPath(sim: seq<seq<real>>, n: nat, m: nat, band: nat, q: seq<Cell>, end: Cell)
    requires IsMatrix(sim, n, m) && IsBackPath(q, n, m, band, end, (0, 0))
    ensures IsPath(Reverse(q), n, m, band, end) && |Reverse(q)| == |q|
    ensures PathCost(sim, n, m, Reverse(q)) == BackCost(sim, n, m, q)
  {
    var p := Reverse(q);
    forall k: nat | k < |q| ensures |p| == |q| && p[k] == q[|q| - 1 - k] {
      ReverseAt(q, k);
    }
    ReverseAt(q, 0);
    ReverseCost(sim, n, m, q);
    forall k | 0 < k < |p| ensures UnitStep(p[k - 1], p[k]) {
      assert UnitStep(q[|q| - k], q[|q| - 1 - k]);
    }
  }

  // ---------------------------------------------------------------------------
  // What every path looks like
  // ---------------------------------------------------------------------------

  /** A path is at least as long as the longer side and shorter than both sides together. */
  lemma {:induction false} PathLength(p: seq<Cell>, n: nat, m: nat, band: nat, end: Cell)
    requires IsPath(p, n, m, band, end)
    ensures end.0 + 1 <= |p| && end.1 + 1 <= |p| && |p| <= end.0 + end.1 + 1
    decreases |p|
  {
    if |p| > 1 {
      PathFront(p, n, m, band, end);
      PathLength(p[..|p| - 1], n, m, band, p[|p| - 2]);
    }
  }

  predicate VisitsRow(p: seq<Cell>, i: int) {
    exists k :: 0 <= k < |p| && p[k].0 == i
  }

  predicate VisitsColumn(p: seq<Cell>, j: int) {
    exists k :: 0 <= k < |p| && p[k].1 == j
  }

  /** A path visits every index of both sides up to its end. */
  lemma {:induction false} PathCovers(p: seq<Cell>, n: nat, m: nat, band: nat, end: Cell)
    requires IsPath(p, n, m, band, end)
    ensures forall i :: 0 <= i <= end.0 ==> VisitsRow(p, i)
    ensures forall j :: 0 <= j <= end.1 ==> VisitsColumn(p, j)
    ensures forall k :: 0 <= k < |p| ==> p[k].0 <= end.0 && p[k].1 <= end.1
    decreases |p|
  {
    assert p[|p| - 1] == end;
    if |p| > 1 {
      PathFront(p, n, m, band, end);
      var front := p[..|p| - 1];
      PathCovers(front, n, m, band, p[|p| - 2]);
      forall i | 0 <= i <= end.0 ensures VisitsRow(p, i) {
        if i < end.0 {
          assert VisitsRow(front, i);
          var k :| 0 <= k < |front| && front[k].0 == i;
          assert p[k].0 == i;
        }
      }
      forall j | 0 <= j <= end.1 ensures VisitsColumn(p, j) {
        if j < end.1 {
          assert VisitsColumn(front, j);
          var k :| 0 <= k < |front| && front[k].1 == j;
          assert p[k].1 == j;
        }
      }
    }
  }

  predicate Unit(sim: seq<seq<real>>, n: nat, m: nat)
    requires IsMatrix(sim, n, m)
  {
    forall i, j :: 0 <= i < n && 0 <= j < m ==> 0.0 <= sim[i][j] <= 1.0
  }

  lemma {:induction false} CostWithinLength(sim: seq<seq<real>>, n: nat, m: nat, p: seq<Cell>)
    requires IsMatrix(sim, n, m) && Unit(sim, n, m) && Inside(p, n, m)
    ensures 0.0 <= PathCost(sim, n, m, p) <= |p| as real
  {
    if |p| > 0 {
      CostWithinLength(sim, n, m, p[..|p| - 1]);
    }
  }

  lemma StartPath(sim: seq<seq<real>>, n: nat, m: nat, band: nat) returns (p: seq<Cell>)
    requires IsMatrix(sim, n, m) && 1 <= n && 1 <= m
    ensures IsPath(p, n, m, band, (0, 0)) && PathCost(sim, n, m, p) == Cost(sim, 0, 0)
  {
    p := [(0, 0)];
    assert p[..0] == [];
    assert PathCost(sim, n, m, p) == PathCost(sim, n, m, []) + Cost(sim, 0, 0);
  }

  /** `p` is a path to `end` and no path to `end` is cheaper. */
  ghost predicate IsCheapest(sim: seq<seq<real>>, n: nat, m: nat, band: nat, p: seq<Cell>, end: Cell)
    requires IsMatrix(sim, n, m)
  {
    && IsPath(p, n, m, band, end)
    && (forall q :: IsPath(q, n, m, band, end) ==> PathCost(sim, n, m, p) <= PathCost(sim, n, m, q))
  }

  /** A cheapest path to every in-band cell exists, and its cost is the table entry. */
  lemma {:induction false} TableIsAttained(sim: seq<seq<real>>, n: nat, m: nat, band: nat, i: nat, j: nat) returns (p: seq<Cell>)
    requires IsMatrix(sim, n, m) && 1 <= i <= n && 1 <= j <= m && InBand(i, j, band)
    ensures IsCheapest(sim, n, m, band, p, (i - 1, j - 1))
    ensures Dp(sim, n, m, band, i, j) == Fin(PathCost(sim, n, m, p))
    decreases i + j
  {
    hide Dp, Prev;
    if i == 1 && j == 1 {
      p := StartPath(sim, n, m, band);
      Corner(sim, n, m, band);
    } else {
      PrevIsOneStepBack(sim, n, m, band, i, j);
      var (a, b) := Prev(sim, n, m, band, i, j);
      var q := TableIsAttained(sim, n, m, band, a, b);
      PathExtend(sim, n, m, band, q, (a - 1, b - 1), (i - 1, j - 1));
      p := q + [(i - 1, j - 1)];
    }
    forall q | IsPath(q, n, m, band, (i - 1, j - 1)) ensures PathCost(sim, n, m, p) <= PathCost(sim, n, m, q) {
      TableIsLowerBound(sim, n, m, band, q, (i - 1, j - 1));
    }
  }

  // ---------------------------------------------------------------------------
  // Similarity along a path
  // ---------------------------------------------------------------------------

  /** The similarities of the pairs a path visits. */
  ghost function Along(sim: seq<seq<real>>, n: nat, m: nat, p: seq<Cell>): (along: seq<real>)
    requires IsMatrix(sim, n, m) && Inside(p, n, m)
    ensures |along| == |p| && forall k :: 0 <= k < |p| ==> along[k] == sim[p[k].0][p[k].1]
  {
    seq(|p|, k requires 0 <= k < |p| => sim[p[k].0][p[k].1])
  }

  /** What a path leaves to be desired: its pairs short of full similarity, added up. */
  ghost function Shortfall(sim: seq<seq<real>>, n: nat, m: nat, p: seq<Cell>): real
    requires IsMatrix(sim, n, m) && Inside(p, n, m)
  {
    |p| as real - Sum(Along(sim, n, m, p))
  }

  lemma {:induction false} CostIsShortfall(sim: seq<seq<real>>, n: nat, m: nat, p: seq<Cell>)
    requires IsMatrix(sim, n, m) && Inside(p, n, m)
    ensures PathCost(sim, n, m, p) == Shortfall(sim, n, m, p)
  {
    if |p| > 0 {
      var front := p[..|p| - 1];
      CostIsShortfall(sim, n, m, front);
      assert Along(sim, n, m, p)[..|p| - 1] == Along(sim, n, m, front);
    }
  }

  /** `p` is a path to `end` and no path to `end` falls less short of full similarity. */
  ghost predicate IsMostSimilar(sim: seq<seq<real>>, n: nat, m: nat, band: nat, p: seq<Cell>, end: Cell)
    requires IsMatrix(sim, n, m)
  {
    && IsPath(p, n, m, band, end)
    && (forall q :: IsPath(q, n, m, band, end) ==> Shortfall(sim, n, m, p) <= Shortfall(sim, n, m, q))
  }

  /** The cheapest paths are the most similar ones. */
  lemma CheapestIsMostSimilar(sim: seq<seq<real>>, n: nat, m: nat, band: nat, p: seq<Cell>, end: Cell)
    requires IsMatrix(sim, n, m)
    ensures IsCheapest(sim, n, m, band, p, end) <==> IsMostSimilar(sim, n, m, band, p, end)
  {
    hide PathCost, Shortfall;
    forall q | IsPath(q, n, m, band, end) ensures PathCost(sim, n, m, q) == Shortfall(sim, n, m, q) {
      CostIsShortfall(sim, n, m, q);
    }
  }

  function Diagonal(n: nat): (p: seq<Cell>)
    ensures |p| == n && forall k :: 0 <= k < n ==> p[k] == (k, k)
  {
    seq(n, k requires 0 <= k < n => (k, k))
  }

  lemma {:induction false} SumAtMost(values: seq<real>)
    requires forall k :: 0 <= k < |values| ==> values[k] <= 1.0
    ensures Sum(values) <= |values| as real
  {
    if values != [] {
      SumAtMost(values[..|values| - 1]);
    }
  }

  /** Two sequences that agree fully pair by pair: whatever else agrees, a most similar path agrees fully. */
  lemma EqualSequences(sim: seq<seq<real>>, n: nat, band: nat, p: seq<Cell>)
    requires IsMatrix(sim, n, n) && n >= 1 && IsMostSimilar(sim, n, n, band, p, (n - 1, n - 1))
    requires forall i, j :: 0 <= i < n && 0 <= j < n ==> sim[i][j] <= 1.0
    requires forall i :: 0 <= i < n ==> sim[i][i] == 1.0
    ensures Mean(Along(sim, n, n, p)) == 1.0
  {
    var d := Diagonal(n);
    assert IsPath(d, n, n, band, (n - 1, n - 1));
    SumOfOnes(Along(sim, n, n, d));
    SumAtMost(Along(sim, n, n, p));
    hide Sum, Mean, Along;
    MeanOfOnes(Along(sim, n, n, p));
  }

  /** Of the three cells before an entry the one above wins ties, then the one to the left. */
  lemma TiesGoUpThenLeft(sim: seq<seq<real>>, n: nat, m: nat, band: nat, i: nat, j: nat)
    requires IsMatrix(sim, n, m) && 1 <= i <= n && 1 <= j <= m && InBand(i, j, band)
    ensures var up, left, both := Dp(sim, n, m, band, i - 1, j), Dp(sim, n, m, band, i, j - 1), Dp(sim, n, m, band, i - 1, j - 1);
            && (Prev(sim, n, m, band, i, j) == (i - 1, j) <==> !Less(left, up) && !Less(both, up))
            && (Prev(sim, n, m, band, i, j) == (i, j - 1) <==> Less(left, up) && !Less(both, left))
  {
    hide Dp;
  }
}
