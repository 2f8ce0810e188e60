/**
 The sliding-window score of a similarity matrix (target rows, candidate columns): the chosen
 window maximises coverage plus a tenth of the average similarity, which is meant to rank by
 coverage first and average second, and exactly when it does.
 */
module SlidingWindow {
  import opened Numbers

  predicate InUnit(sim: seq<seq<real>>) {
    forall i, j :: 0 <= i < |sim| && 0 <= j < |sim[i]| ==> 0.0 <= sim[i][j] <= 1.0
  }

  /** Sum of the first k similarities of the window at s. */
  function Sum(sim: seq<seq<real>>, n: nat, m: nat, s: nat, k: nat): real
    requires IsMatrix(sim, n, m) && k <= m && s + m <= n
  {
    if k == 0 then 0.0 else Sum(sim, n, m, s, k - 1) + sim[s + k - 1][k - 1]
  }

  /** How many of them reach the threshold. */
  function Count(sim: seq<seq<real>>, n: nat, m: nat, s: nat, k: nat, threshold: real): (c: nat)
    requires IsMatrix(sim, n, m) && k <= m && s + m <= n
    ensures c <= k
  {
    if k == 0 then 0
    else Count(sim, n, m, s, k - 1, threshold) + if sim[s + k - 1][k - 1] >= threshold then 1 else 0
  }

  function Coverage(sim: seq<seq<real>>, n: nat, m: nat, s: nat, threshold: real): real
    requires IsMatrix(sim, n, m) && 0 < m && s + m <= n
  {
    Count(sim, n, m, s, m, threshold) as real / m as real
  }

  function Average(sim: seq<seq<real>>, n: nat, m: nat, s: nat): real
    requires IsMatrix(sim, n, m) && 0 < m && s + m <= n
  {
    Sum(sim, n, m, s, m) / m as real
  }

  function Score(sim: seq<seq<real>>, n: nat, m: nat, s: nat, threshold: real): real
    requires IsMatrix(sim, n, m) && 0 < m && s + m <= n
  {
    Coverage(sim, n, m, s, threshold) + Average(sim, n, m, s) * 0.1
  }

  /** The first window of the highest score among those up to `last`. */
  function ArgMax(sim: seq<seq<real>>, n: nat, m: nat, threshold: real, last: nat): (s: nat)
    requires IsMatrix(sim, n, m) && 0 < m && last + m <= n
    ensures s <= last
    ensures forall i :: 0 <= i <= last ==> Score(sim, n, m, i, threshold) <= Score(sim, n, m, s, threshold)
    ensures forall i :: 0 <= i < s ==> Score(sim, n, m, i, threshold) < Score(sim, n, m, s, threshold)
  {
    if last == 0 then 0
    else
      var best := ArgMax(sim, n, m, threshold, last - 1);
      if Score(sim, n, m, last, threshold) > Score(sim, n, m, best, threshold) then last else best
  }

  /** Coverage, offset and average of the chosen window. */
  function SlidingWindowCoverage(sim: seq<seq<real>>, n: nat, m: nat, threshold: real): (real, nat, real)
    requires IsMatrix(sim, n, m) && 0 < m
  {
    if n < m then (0.0, 0, 0.0)
    else
      var best := ArgMax(sim, n, m, threshold, n - m);
      (Coverage(sim, n, m, best, threshold), best, Average(sim, n, m, best))
  }

  /** The similarities of candidate segment k and target segment s + k. */
  function Window(sim: seq<seq<real>>, n: nat, m: nat, s: nat): (values: seq<real>)
    requires IsMatrix(sim, n, m) && s + m <= n
    ensures |values| == m && forall k :: 0 <= k < m ==> values[k] == sim[s + k][k]
  {
    seq(m, k requires 0 <= k < m => sim[s + k][k])
  }

  function Reaching(values: seq<real>, threshold: real): set<nat> {
    set k: nat | k < |values| && values[k] >= threshold
  }

  lemma {:induction false} CountIs(sim: seq<seq<real>>, n: nat, m: nat, s: nat, k: nat, threshold: real)
    requires IsMatrix(sim, n, m) && k <= m && s + m <= n
    ensures Count(sim, n, m, s, k, threshold) == |Reaching(Window(sim, n, m, s)[..k], threshold)|
    ensures Sum(sim, n, m, s, k) == Numbers.Sum(Window(sim, n, m, s)[..k])
  {
    var w := Window(sim, n, m, s);
    if k == 0 {
      assert Reaching(w[..0], threshold) == {};
    } else {
      CountIs(sim, n, m, s, k - 1, threshold);
      assert w[..k][..k - 1] == w[..k - 1];
      var before, now := Reaching(w[..k - 1], threshold), Reaching(w[..k], threshold);
      assert now == before + if w[k - 1] >= threshold then {k - 1} else {};
      assert w[k - 1] == sim[s + k - 1][k - 1];
    }
  }

  /** The figures returned are the chosen window's own: the share of its similarities that reach the
      threshold and their mean. No window combines to more, and none before it to as much. */
  lemma ChosenWindow(sim: seq<seq<real>>, n: nat, m: nat, threshold: real, u: nat)
    requires IsMatrix(sim, n, m) && 0 < m && u + m <= n
    ensures var r := SlidingWindowCoverage(sim, n, m, threshold);
            r.1 + m <= n &&
            var chosen, other := Window(sim, n, m, r.1), Window(sim, n, m, u);
            && r.0 == |Reaching(chosen, threshold)| as real / m as real && r.2 == Mean(chosen)
            && |Reaching(other, threshold)| as real / m as real + Mean(other) * 0.1 <= r.0 + r.2 * 0.1
            && (u < r.1 ==> |Reaching(other, threshold)| as real / m as real + Mean(other) * 0.1 < r.0 + r.2 * 0.1)
  {
    var best := ArgMax(sim, n, m, threshold, n - m);
    assert Score(sim, n, m, u, threshold) <= Score(sim, n, m, best, threshold);
    WindowNumbers(sim, n, m, best, threshold);
    WindowNumbers(sim, n, m, u, threshold);
    hide ArgMax, Coverage, Average, Reaching, Mean;
  }

  lemma WindowNumbers(sim: seq<seq<real>>, n: nat, m: nat, s: nat, threshold: real)
    requires IsMatrix(sim, n, m) && 0 < m && s + m <= n
    ensures Coverage(sim, n, m, s, threshold) == |Reaching(Window(sim, n, m, s), threshold)| as real / m as real
    ensures Average(sim, n, m, s) == Mean(Window(sim, n, m, s))
  {
    CountIs(sim, n, m, s, m, threshold);
    assert Window(sim, n, m, s)[..m] == Window(sim, n, m, s);
  }

  /** A candidate longer than the target has no window. */
  lemma NoWindow(sim: seq<seq<real>>, n: nat, m: nat, threshold: real)
    requires IsMatrix(sim, n, m) && n < m
    ensures SlidingWindowCoverage(sim, n, m, threshold) == (0.0, 0, 0.0)
  {
  }

  // ---------------------------------------------------------------------------
  // Bounds on one window
  // ---------------------------------------------------------------------------

  predicate Between(sum: real, c: nat, k: nat, t: real) {
    && 0.0 <= sum <= k as real
    && c as real * t <= sum <= c as real + (k - c) as real * t
    && (c < k ==> sum < c as real + (k - c) as real * t)
  }

  lemma BetweenStep(sum: real, c: nat, k: nat, t: real, x: real)
    requires c <= k && Between(sum, c, k, t) && 0.0 <= x <= 1.0
    ensures Between(sum + x, if x >= t then c + 1 else c, k + 1, t)
  {
    OneMore(c, t);
    OneMore(k - c, t);
  }

  /** With c of k similarities at or above the threshold, the sum lies between c * t and c + (k - c) * t. */
  lemma {:induction false} SumBetween(sim: seq<seq<real>>, n: nat, m: nat, s: nat, k: nat, t: real)
    requires IsMatrix(sim, n, m) && InUnit(sim) && k <= m && s + m <= n
    ensures Between(Sum(sim, n, m, s, k), Count(sim, n, m, s, k, t), k, t)
  {
    if k > 0 {
      SumBetween(sim, n, m, s, k - 1, t);
      var c := Count(sim, n, m, s, k - 1, t);
      var x := sim[s + k - 1][k - 1];
      hide Between;
      BetweenStep(Sum(sim, n, m, s, k - 1), c, k - 1, t, x);
    }
  }

  lemma OneMore(c: nat, t: real)
    ensures (c + 1) as real * t == c as real * t + t
  {
  }

  /** Ten points a hit, plus the similarities. */
  function Points(sim: seq<seq<real>>, n: nat, m: nat, s: nat, t: real): real
    requires IsMatrix(sim, n, m) && s + m <= n
  {
    10.0 * Count(sim, n, m, s, m, t) as real + Sum(sim, n, m, s, m)
  }

  /** Scores compare as points do. */
  lemma ScoreCompares(sim: seq<seq<real>>, n: nat, m: nat, s: nat, u: nat, t: real)
    requires IsMatrix(sim, n, m) && 0 < m && s + m <= n && u + m <= n
    ensures Score(sim, n, m, s, t) <= Score(sim, n, m, u, t) <==> Points(sim, n, m, s, t) <= Points(sim, n, m, u, t)
  {
    ScoreIsPoints(sim, n, m, s, t);
    ScoreIsPoints(sim, n, m, u, t);
    hide Score, Points;
    var d := Score(sim, n, m, u, t) - Score(sim, n, m, s, t);
    SameSign(d, 10.0 * m as real);
  }

  lemma ScoreIsPoints(sim: seq<seq<real>>, n: nat, m: nat, s: nat, t: real)
    requires IsMatrix(sim, n, m) && 0 < m && s + m <= n
    ensures Score(sim, n, m, s, t) * (10.0 * m as real) == Points(sim, n, m, s, t)
  {
    ScoreScaled(Count(sim, n, m, s, m, t) as real, Sum(sim, n, m, s, m), m as real);
  }

  lemma ScoreScaled(count: real, sum: real, m: real)
    requires m > 0.0
    ensures (count / m + sum / m * 0.1) * (10.0 * m) == 10.0 * count + sum
  {
    var q := count / m;
    var r := sum / m;
    assert q * m == count && r * m == sum;
  }

  lemma CoverageCompares(sim: seq<seq<real>>, n: nat, m: nat, s: nat, u: nat, t: real)
    requires IsMatrix(sim, n, m) && 0 < m && s + m <= n && u + m <= n
    ensures Coverage(sim, n, m, s, t) <= Coverage(sim, n, m, u, t) <==> Count(sim, n, m, s, m, t) <= Count(sim, n, m, u, m, t)
  {
    Quotients(Count(sim, n, m, s, m, t), Count(sim, n, m, u, m, t), m);
  }

  lemma Quotients(x: nat, y: nat, m: nat)
    requires m > 0
    ensures x as real / m as real <= y as real / m as real <==> x <= y
  {
    var a, b, d := x as real / m as real, y as real / m as real, m as real;
    assert a * d == x as real && b * d == y as real;
    SameSign(b - a, d);
    assert (b - a) * d == b * d - a * d;
  }

  lemma AverageInUnit(sim: seq<seq<real>>, n: nat, m: nat, s: nat)
    requires IsMatrix(sim, n, m) && InUnit(sim) && 0 < m && s + m <= n
    ensures 0.0 <= Average(sim, n, m, s) <= 1.0
  {
    SumBetween(sim, n, m, s, m, 0.0);
    var a, d := Average(sim, n, m, s), m as real;
    assert a * d == Sum(sim, n, m, s, m);
    SameSign(a, d);
    SameSign(1.0 - a, d);
    assert (1.0 - a) * d == d - a * d;
  }

  // ---------------------------------------------------------------------------
  // The chosen window
  // ---------------------------------------------------------------------------

  /** Its coverage is within a tenth of that of any window, and no window of equal coverage has a better average. */
  lemma NearlyBestCoverage(sim: seq<seq<real>>, n: nat, m: nat, threshold: real, u: nat)
    requires IsMatrix(sim, n, m) && InUnit(sim) && 0 < m && u + m <= n
    ensures var (coverage, s, average) := SlidingWindowCoverage(sim, n, m, threshold);
            && coverage >= Coverage(sim, n, m, u, threshold) - 0.1
            && (coverage == Coverage(sim, n, m, u, threshold) ==> average >= Average(sim, n, m, u))
  {
    var s := ArgMax(sim, n, m, threshold, n - m);
    assert Score(sim, n, m, u, threshold) <= Score(sim, n, m, s, threshold);
    AverageInUnit(sim, n, m, s);
    AverageInUnit(sim, n, m, u);
  }

  function Max(x: real, y: real): real {
    if x < y then y else x
  }

  /** The candidate length and threshold for which a tenth of the average never outweighs a hit. */
  predicate Safe(m: nat, t: real) {
    t <= 0.0 || t > 1.0 || (m as real - 1.0) * Max(t, 1.0 - t) <= 10.0
  }

  /** The chosen window has the best coverage of all, when the parameters are safe. */
  lemma CoverageFirst(sim: seq<seq<real>>, n: nat, m: nat, t: real, u: nat)
    requires IsMatrix(sim, n, m) && InUnit(sim) && 0 < m && u + m <= n && Safe(m, t)
    ensures SlidingWindowCoverage(sim, n, m, t).0 >= Coverage(sim, n, m, u, t)
  {
    hide Score, Coverage, Sum, Count, Safe, InUnit;
    var s := ArgMax(sim, n, m, t, n - m);
    assert Score(sim, n, m, u, t) <= Score(sim, n, m, s, t);
    assert SlidingWindowCoverage(sim, n, m, t).0 == Coverage(sim, n, m, s, t);
    hide SlidingWindowCoverage, ArgMax;
    CoverageCompares(sim, n, m, u, s, t);
    ScoreCompares(sim, n, m, u, s, t);
    SumBetween(sim, n, m, s, m, t);
    SumBetween(sim, n, m, u, m, t);
    AllOrNone(sim, n, m, s, m, t);
    AllOrNone(sim, n, m, u, m, t);
    var a, b := Count(sim, n, m, s, m, t), Count(sim, n, m, u, m, t);
    if a < b {
      assert 0.0 < t <= 1.0;
      NoTrade(a, b, m, t, Sum(sim, n, m, s, m), Sum(sim, n, m, u, m));
    }
  }

  lemma {:induction false} AllOrNone(sim: seq<seq<real>>, n: nat, m: nat, s: nat, k: nat, t: real)
    requires IsMatrix(sim, n, m) && InUnit(sim) && k <= m && s + m <= n
    ensures t <= 0.0 ==> Count(sim, n, m, s, k, t) == k
    ensures t > 1.0 ==> Count(sim, n, m, s, k, t) == 0
  {
    if k > 0 {
      AllOrNone(sim, n, m, s, k - 1, t);
      assert 0.0 <= sim[s + k - 1][k - 1] <= 1.0;
    }
  }

  /** Fewer hits cannot be made up for by the sum. */
  lemma NoTrade(a: nat, b: nat, m: nat, t: real, x: real, y: real)
    requires a < b <= m && 0.0 < t <= 1.0 && Safe(m, t)
    requires x < a as real + (m - a) as real * t && b as real * t <= y
    ensures 10.0 * a as real + x < 10.0 * b as real + y
  {
    var p, q, w := a as real, b as real, m as real;
    assert (m - a) as real == w - p;
    var above, low := (m - a) as real * t, b as real * t;
    assert above == Times(w - p, t) && low == Times(q, t);
    hide Times;
    TradeOff(p, q, w, t, x, y);
  }

  lemma TradeOff(p: real, q: real, w: real, t: real, x: real, y: real)
    requires 0.0 <= p && p + 1.0 <= q && p + 1.0 <= w && 0.0 < t <= 1.0
    requires Times(w - 1.0, Max(t, 1.0 - t)) <= 10.0
    requires x < p + Times(w - p, t) && Times(q, t) <= y
    ensures 10.0 * p + x < 10.0 * q + y
  {
    hide Times;
    AtMostTen(p, w, t);
    TimesGrows(p + 1.0, q, t);
  }

  lemma TimesGrows(a: real, b: real, t: real)
    requires a <= b && t >= 0.0
    ensures Times(a, t) <= Times(b, t)
  {
    Grows(a, b, t);
  }

  lemma AtMostTen(p: real, w: real, t: real)
    requires 0.0 <= p <= w - 1.0 && 0.0 < t <= 1.0 && Times(w - 1.0, Max(t, 1.0 - t)) <= 10.0
    ensures p + Times(w - p, t) - Times(p + 1.0, t) <= 10.0
  {
    hide Times;
    if t >= 0.5 {
      ByHigh(p, w, t);
    } else {
      ByLow(p, w, t);
    }
  }

  lemma ByHigh(p: real, w: real, t: real)
    requires 0.0 <= p && t >= 0.5
    ensures p + Times(w - p, t) - Times(p + 1.0, t) <= Times(w - 1.0, t)
  {
    Grows(0.0, p, 2.0 * t - 1.0);
  }

  lemma ByLow(p: real, w: real, t: real)
    requires p <= w - 1.0 && t < 0.5
    ensures p + Times(w - p, t) - Times(p + 1.0, t) <= Times(w - 1.0, 1.0 - t)
  {
    Grows(0.0, w - 1.0 - p, 1.0 - 2.0 * t);
  }

  lemma AtMost(a: real, x: real)
    requires 0.0 <= a && x <= 1.0
    ensures a * x <= a
  {
  }

  /** In particular for candidates of at most eleven segments and any threshold. */
  lemma ShortCandidates(m: nat, t: real)
    requires 0 < m <= 11
    ensures Safe(m, t)
  {
    if 0.0 < t <= 1.0 {
      var x := Max(t, 1.0 - t);
      assert 0.0 <= x <= 1.0;
      AtMost(m as real - 1.0, x);
    }
  }

  // ---------------------------------------------------------------------------
  // When coverage loses
  // ---------------------------------------------------------------------------

  /** By how little the similarities of the window at 0 miss the threshold. */
  function Miss(m: nat, t: real): real
    requires m > 0
  {
    if t >= 0.5 then ((m as real - 1.0) * t - 10.0) / (2.0 * m as real)
    else
      var room := ((m as real - 1.0) * (1.0 - t) - 10.0) / 2.0;
      if room < t / 2.0 then room else t / 2.0
  }

  /** The window at 0 just misses the threshold; the one at 1 just reaches it, once more often. */
  function Cell(m: nat, t: real, i: nat, j: nat): real
    requires m > 0
  {
    if i == j then if t < 0.5 && j + 1 < m then 1.0 else t - Miss(m, t)
    else if i == j + 1 then if t < 0.5 || j == 0 then t else 0.0
    else 0.0
  }

  function Trap(n: nat, m: nat, t: real): (sim: seq<seq<real>>)
    requires m > 0
    ensures IsMatrix(sim, n, m)
    ensures forall i, j :: 0 <= i < n && 0 <= j < m ==> sim[i][j] == Cell(m, t, i, j)
  {
    seq(n, i requires 0 <= i < n => seq(m, j requires 0 <= j < m => Cell(m, t, i, j)))
  }

  lemma MissRange(m: nat, t: real)
    requires m > 0 && !Safe(m, t)
    ensures 0.0 < Miss(m, t) < t
    ensures t >= 0.5 ==> 2.0 * m as real * Miss(m, t) == (m as real - 1.0) * t - 10.0
    ensures t < 0.5 ==> 2.0 * Miss(m, t) <= (m as real - 1.0) * (1.0 - t) - 10.0
  {
    if t >= 0.5 {
      MissHigh(m as real, t);
    }
  }

  lemma MissHigh(w: real, t: real)
    requires w >= 1.0 && t >= 0.5 && (w - 1.0) * t > 10.0
    ensures var e := ((w - 1.0) * t - 10.0) / (2.0 * w); 0.0 < e < t && 2.0 * w * e == (w - 1.0) * t - 10.0
  {
    var room := (w - 1.0) * t - 10.0;
    assert t * (2.0 * w) - room == (w + 1.0) * t + 10.0;
    SameSign(w + 1.0, t);
    QuotientBetween(room, 2.0 * w, t);
  }

  lemma QuotientBetween(room: real, d: real, t: real)
    requires d > 0.0 && 0.0 < room < t * d
    ensures 0.0 < room / d < t && d * (room / d) == room
  {
    var e := room / d;
    assert e * d == room;
    SameSign(e, d);
    SameSign(t - e, d);
  }

  lemma TrapInUnit(n: nat, m: nat, t: real)
    requires m > 0 && !Safe(m, t)
    ensures InUnit(Trap(n, m, t))
  {
    MissRange(m, t);
    var sim := Trap(n, m, t);
    forall i, j | 0 <= i < n && 0 <= j < m ensures 0.0 <= sim[i][j] <= 1.0 {
      assert sim[i][j] == Cell(m, t, i, j);
    }
  }

  lemma TrapAt(n: nat, m: nat, t: real, s: nat, k: nat)
    requires m > 0 && s + m <= n && 0 < k <= m
    ensures var sim := Trap(n, m, t); var x := Cell(m, t, s + k - 1, k - 1);
            && Sum(sim, n, m, s, k) == Sum(sim, n, m, s, k - 1) + x
            && Count(sim, n, m, s, k, t) == Count(sim, n, m, s, k - 1, t) + if x >= t then 1 else 0
  {
    var sim := Trap(n, m, t);
    assert sim[s + k - 1][k - 1] == Cell(m, t, s + k - 1, k - 1);
  }

  lemma {:induction false} TrapMisses(n: nat, m: nat, t: real, k: nat)
    requires m > 0 && !Safe(m, t) && m <= n && k <= m
    ensures var sim := Trap(n, m, t); var c := Count(sim, n, m, 0, k, t); var x := Sum(sim, n, m, 0, k);
            && (t >= 0.5 ==> c == 0 && x == Times(k as real, t - Miss(m, t)))
            && (t < 0.5 ==> if k < m then c == k && x == k as real else c == m - 1 && x == m as real - 1.0 + t - Miss(m, t))
  {
    if k > 0 {
      MissRange(m, t);
      hide Trap, Sum, Count, Safe, Miss;
      TrapMisses(n, m, t, k - 1);
      TrapAt(n, m, t, 0, k);
      OneMore(k - 1, t - Miss(m, t));
    }
  }

  lemma {:induction false} TrapHits(n: nat, m: nat, t: real, k: nat)
    requires m > 0 && !Safe(m, t) && 1 + m <= n && k <= m
    ensures var sim := Trap(n, m, t); var c := Count(sim, n, m, 1, k, t); var x := Sum(sim, n, m, 1, k);
            && (t >= 0.5 && k > 0 ==> c == 1 && x == t)
            && (t < 0.5 ==> c == k && x == Times(k as real, t))
  {
    if k > 0 {
      MissRange(m, t);
      TrapAt(n, m, t, 1, k);
      TrapHits(n, m, t, k - 1);
      hide Trap, Safe, Miss;
      OneMore(k - 1, t);
    }
  }

  lemma {:induction false} TrapElsewhere(n: nat, m: nat, t: real, s: nat, k: nat)
    requires m > 0 && !Safe(m, t) && s + m <= n && k <= m && s > 1
    ensures Count(Trap(n, m, t), n, m, s, k, t) == 0 && Sum(Trap(n, m, t), n, m, s, k) == 0.0
  {
    if k > 0 {
      TrapAt(n, m, t, s, k);
      TrapElsewhere(n, m, t, s, k - 1);
    }
  }

  lemma TrapPoints(n: nat, m: nat, t: real)
    requires m > 0 && !Safe(m, t) && m < n
    ensures var sim, w, e := Trap(n, m, t), m as real, Miss(m, t);
            && Points(sim, n, m, 0, t) == (if t >= 0.5 then Times(w, t - e) else 10.0 * (w - 1.0) + (w - 1.0 + t - e))
            && Points(sim, n, m, 1, t) == (if t >= 0.5 then 10.0 + t else 10.0 * w + Times(w, t))
            && Count(sim, n, m, 0, m, t) < Count(sim, n, m, 1, m, t)
  {
    hide Sum, Trap, Safe, Miss, Count;
    TrapMisses(n, m, t, m);
    TrapHits(n, m, t, m);
    hide Times;
  }

  lemma TrapScores(n: nat, m: nat, t: real)
    requires m > 0 && !Safe(m, t) && m < n
    ensures var sim := Trap(n, m, t);
            && Points(sim, n, m, 0, t) > Points(sim, n, m, 1, t) >= 0.0
            && Count(sim, n, m, 0, m, t) < Count(sim, n, m, 1, m, t)
  {
    hide *;
    TrapPoints(n, m, t);
    MissRange(m, t);
    if t >= 0.5 {
      TrapHigh(m as real, t, Miss(m, t));
    } else {
      TrapLow(m as real, t, Miss(m, t));
    }
  }

  lemma TrapHigh(w: real, t: real, e: real)
    requires 2.0 * w * e == (w - 1.0) * t - 10.0 && w >= 1.0 && e > 0.0
    ensures Times(w, t - e) > 10.0 + t
  {
    SameSign(e, w);
    var we, wt := w * e, w * t;
    assert w * (t - e) == wt - we;
    assert (w - 1.0) * t == wt - t;
    assert 2.0 * w * e == 2.0 * we;
    assert e * w == we;
  }

  lemma TrapLow(w: real, t: real, e: real)
    requires 2.0 * e <= (w - 1.0) * (1.0 - t) - 10.0 && e > 0.0 && t > 0.0 && w >= 1.0
    ensures 10.0 * (w - 1.0) + (w - 1.0 + t - e) > 10.0 * w + Times(w, t) >= 0.0
  {
    var wt := w * t;
    SameSign(w, t);
    assert (w - 1.0) * (1.0 - t) == w - 1.0 - wt + t;
  }

  /** Otherwise there are similarities for which a window of lower coverage is chosen. */
  lemma CoverageLoses(n: nat, m: nat, t: real)
    requires 0 < m < n && !Safe(m, t)
    ensures var sim := Trap(n, m, t);
            InUnit(sim) && SlidingWindowCoverage(sim, n, m, t).0 < Coverage(sim, n, m, 1, t)
  {
    var sim := Trap(n, m, t);
    TrapInUnit(n, m, t);
    TrapScores(n, m, t);
    var s := ArgMax(sim, n, m, t, n - m);
    assert Score(sim, n, m, 0, t) <= Score(sim, n, m, s, t);
    ScoreCompares(sim, n, m, 0, s, t);
    ScoreCompares(sim, n, m, 0, 1, t);
    if s > 1 {
      TrapElsewhere(n, m, t, s, m);
    }
    hide Trap, Score, Coverage, Sum;
    assert s == 0;
    CoverageCompares(sim, n, m, 1, s, t);
  }

  ghost predicate AlwaysCoverageFirst(n: nat, m: nat, t: real)
    requires 0 < m
  {
    forall sim, u | IsMatrix(sim, n, m) && InUnit(sim) && 0 <= u <= n - m ::
      SlidingWindowCoverage(sim, n, m, t).0 >= Coverage(sim, n, m, u, t)
  }

  /** Coverage comes first for all similarities exactly when there is one window at most or the parameters are safe. */
  lemma CoverageFirstExactly(n: nat, m: nat, t: real)
    requires 0 < m
    ensures AlwaysCoverageFirst(n, m, t) <==> n <= m || Safe(m, t)
  {
    if n <= m || Safe(m, t) {
      forall sim, u | IsMatrix(sim, n, m) && InUnit(sim) && 0 <= u <= n - m
        ensures SlidingWindowCoverage(sim, n, m, t).0 >= Coverage(sim, n, m, u, t)
      {
        if Safe(m, t) {
          CoverageFirst(sim, n, m, t, u);
        }
      }
    } else {
      CoverageLoses(n, m, t);
      var sim := Trap(n, m, t);
      assert IsMatrix(sim, n, m) && InUnit(sim);
      assert SlidingWindowCoverage(sim, n, m, t).0 < Coverage(sim, n, m, 1, t);
    }
  }
}
