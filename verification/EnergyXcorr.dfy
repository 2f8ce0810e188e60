/**
 Normalised cross-correlation of loudness envelopes, in exact arithmetic. A square root enters
 as a number that is not negative and has the given square.
 */
module EnergyXcorr {
  import opened Numbers

  datatype Note = EmptySequence | CandidateTooLong | NearlySilent | Swept

  datatype Alignment = Alignment(similarity: real, start: nat, end: nat, offset: real, note: Note, peak: real)

  const FLOOR: real := 0.00000001

  function SumSquares(x: seq<real>): real {
    if x == [] then 0.0 else SumSquares(x[..|x| - 1]) + x[|x| - 1] * x[|x| - 1]
  }

  function Dot(x: seq<real>, y: seq<real>): real
    requires |x| == |y|
  {
    if x == [] then 0.0 else Dot(x[..|x| - 1], y[..|x| - 1]) + x[|x| - 1] * y[|x| - 1]
  }

  function Shift(x: seq<real>, d: real): (y: seq<real>)
    ensures |y| == |x| && forall i :: 0 <= i < |x| ==> y[i] == x[i] - d
  {
    seq(|x|, i requires 0 <= i < |x| => x[i] - d)
  }

  function Centred(x: seq<real>): (y: seq<real>)
    requires x != []
    ensures |y| == |x|
  {
    Shift(x, Mean(x))
  }

  /** 0 followed by the running sums of squares. */
  function PrefixSquares(x: seq<real>): (cs: seq<real>)
    ensures |cs| == |x| + 1
  {
    if x == [] then [0.0]
    else
      var cs := PrefixSquares(x[..|x| - 1]);
      cs + [cs[|x| - 1] + x[|x| - 1] * x[|x| - 1]]
  }

  predicate IsRoot(r: real, x: real) {
    r >= 0.0 && r * r == x
  }

  function Positive(x: real): real {
    if x < 0.0 then 0.0 else x
  }

  /** The energy of the target under the candidate at lag s, as the difference of two running sums. */
  function LocalSquares(t: seq<real>, m: nat, s: nat): real
    requires 0 < m && s + m <= |t|
  {
    var cs := PrefixSquares(Centred(t));
    Positive(cs[s + m] - cs[s])
  }

  function Correlation(t: seq<real>, c: seq<real>, s: nat): real
    requires c != [] && s + |c| <= |t|
  {
    Dot(Centred(t)[s..s + |c|], Centred(c))
  }

  function Normalised(t: seq<real>, c: seq<real>, s: nat, energy: real, local: real): real
    requires c != [] && s + |c| <= |t|
  {
    var denominator := energy * local;
    Correlation(t, c, s) / if denominator < FLOOR then FLOOR else denominator
  }

  /** The root of the energy of either side. */
  predicate AreRoots(t: seq<real>, c: seq<real>, energy: real, locals: seq<real>) {
    c != [] && |c| <= |t| ==>
      && IsRoot(energy, SumSquares(Centred(c)))
      && |locals| == |t| - |c| + 1
      && forall s :: 0 <= s < |locals| ==> IsRoot(locals[s], LocalSquares(t, |c|, s))
  }

  function ArgMax(x: seq<real>): (k: nat)
    requires x != []
    ensures k < |x| && (forall i :: 0 <= i < |x| ==> x[i] <= x[k]) && forall i :: 0 <= i < k ==> x[i] < x[k]
  {
    if |x| == 1 then 0
    else
      var k := ArgMax(x[..|x| - 1]);
      assert forall i :: 0 <= i < |x| - 1 ==> x[..|x| - 1][i] == x[i];
      if x[|x| - 1] > x[k] then |x| - 1 else k
  }

  function AlignEnergy(t: seq<real>, c: seq<real>, segmentSeconds: real, energy: real, locals: seq<real>): Alignment
    requires AreRoots(t, c, energy, locals)
  {
    if t == [] || c == [] then Alignment(0.0, 0, 0, 0.0, EmptySequence, 0.0)
    else if |c| > |t| then Alignment(0.0, 0, 0, 0.0, CandidateTooLong, 0.0)
    else if energy < FLOOR then Alignment(0.0, 0, 0, 0.0, NearlySilent, 0.0)
    else
      var normalised := seq(|locals|, s requires 0 <= s < |locals| => Normalised(t, c, s, energy, locals[s]));
      var best := ArgMax(normalised);
      var peak := normalised[best];
      Alignment(Clip01(peak), best, best + |c| - 1, best as real * segmentSeconds, Swept, peak)
  }

  // ---------------------------------------------------------------------------
  // Running sums
  // ---------------------------------------------------------------------------

  lemma {:induction false} PrefixIs(x: seq<real>, k: nat)
    requires k <= |x|
    ensures PrefixSquares(x)[k] == SumSquares(x[..k])
  {
    if x != [] {
      var n := |x| - 1;
      if k <= n {
        assert x[..n][..k] == x[..k];
        PrefixIs(x[..n], k);
      } else {
        assert x[..k] == x;
        PrefixIs(x[..n], n);
        assert x[..n][..n] == x[..n];
      }
    }
  }

  lemma {:induction false} SumSquaresAppend(x: seq<real>, y: seq<real>)
    ensures SumSquares(x + y) == SumSquares(x) + SumSquares(y)
  {
    if y == [] {
      assert x + y == x;
    } else {
      assert (x + y)[..|x + y| - 1] == x + y[..|y| - 1];
      SumSquaresAppend(x, y[..|y| - 1]);
    }
  }

  lemma {:induction false} SumSquaresAtLeastZero(x: seq<real>)
    ensures SumSquares(x) >= 0.0
  {
    if x != [] {
      SumSquaresAtLeastZero(x[..|x| - 1]);
    }
  }

  lemma SumSquaresSplit(x: seq<real>, s: nat, m: nat)
    requires s + m <= |x|
    ensures SumSquares(x[..s + m]) == SumSquares(x[..s]) + SumSquares(x[s..s + m])
  {
    assert x[..s + m] == x[..s] + x[s..s + m];
    SumSquaresAppend(x[..s], x[s..s + m]);
  }

  /** The difference of two running sums is the energy of the stretch between them; the cut at 0 does nothing. */
  lemma PrefixDifference(x: seq<real>, s: nat, m: nat)
    requires s + m <= |x|
    ensures PrefixSquares(x)[s + m] - PrefixSquares(x)[s] == SumSquares(x[s..s + m])
    ensures Positive(PrefixSquares(x)[s + m] - PrefixSquares(x)[s]) == SumSquares(x[s..s + m])
  {
    hide SumSquares, PrefixSquares;
    PrefixIs(x, s);
    PrefixIs(x, s + m);
    SumSquaresSplit(x, s, m);
    SumSquaresAtLeastZero(x[s..s + m]);
  }

  // ---------------------------------------------------------------------------
  // Cauchy-Schwarz
  // ---------------------------------------------------------------------------

  lemma SquareNotNegative(x: real)
    ensures x * x >= 0.0
  {
  }

  lemma PositiveProduct(a: real, b: real)
    requires a > 0.0 && b > 0.0
    ensures a * b > 0.0
  {
  }

  lemma SquaresGrow(a: real, b: real)
    requires 0.0 <= a < b
    ensures a * a < b * b
  {
    assert b * b - a * a == (b - a) * (b + a);
    PositiveProduct(b - a, b + a);
  }

  lemma NotAbove(u: real, v: real)
    requires u >= 0.0 && v * v <= u * u
    ensures v <= u
  {
    if v > u {
      SquaresGrow(u, v);
    }
  }

  /** Squares order numbers when the larger is not negative. */
  lemma RootOrder(u: real, v: real)
    requires u >= 0.0 && v * v <= u * u
    ensures -u <= v <= u
  {
    NotAbove(u, v);
    assert (-v) * (-v) == v * v;
    NotAbove(u, -v);
  }

  lemma CauchyStep(d: real, x: real, y: real, a: real, b: real)
    requires x >= 0.0 && y >= 0.0 && d * d <= x * y
    ensures (d + a * b) * (d + a * b) <= (x + a * a) * (y + b * b)
  {
    var u := x * (b * b) + y * (a * a);
    var v := 2.0 * d * (a * b);
    SquareNotNegative(a);
    SquareNotNegative(b);
    Products(x, b * b);
    Products(y, a * a);
    CrossTerm(d, x, y, a, b);
    RootOrder(u, v);
    assert (d + a * b) * (d + a * b) == d * d + v + (a * b) * (a * b);
    assert (x + a * a) * (y + b * b) == x * y + u + (a * b) * (a * b);
  }

  lemma Products(x: real, y: real)
    requires x >= 0.0 && y >= 0.0
    ensures x * y >= 0.0
  {
  }

  lemma CrossTerm(d: real, x: real, y: real, a: real, b: real)
    requires x >= 0.0 && y >= 0.0 && d * d <= x * y
    ensures var u := x * (b * b) + y * (a * a); var v := 2.0 * d * (a * b); v * v <= u * u
  {
    var p, q := x * (b * b), y * (a * a);
    var w := (a * b) * (a * b);
    SquareNotNegative(p - q);
    SquareNotNegative(a * b);
    assert p * q == (x * y) * w;
    assert (2.0 * d * (a * b)) * (2.0 * d * (a * b)) == 4.0 * ((d * d) * w);
    Grows(d * d, x * y, w);
    assert (p + q) * (p + q) == (p - q) * (p - q) + 4.0 * (p * q);
  }

  lemma {:induction false} CauchySchwarz(x: seq<real>, y: seq<real>)
    requires |x| == |y|
    ensures Dot(x, y) * Dot(x, y) <= SumSquares(x) * SumSquares(y)
  {
    if x != [] {
      var n := |x| - 1;
      CauchySchwarz(x[..n], y[..n]);
      SumSquaresAtLeastZero(x[..n]);
      SumSquaresAtLeastZero(y[..n]);
      CauchyStep(Dot(x[..n], y[..n]), SumSquares(x[..n]), SumSquares(y[..n]), x[n], y[n]);
    }
  }

  lemma RootProduct(e: real, l: real, x: real, y: real)
    requires IsRoot(e, x) && IsRoot(l, y)
    ensures e * l >= 0.0 && (e * l) * (e * l) == y * x
  {
    assert (e * l) * (e * l) == (e * e) * (l * l);
  }

  lemma QuotientInUnit(v: real, d: real)
    requires d > 0.0 && -d <= v <= d
    ensures -1.0 <= v / d <= 1.0
  {
    assert (v / d) * d == v;
    SameSign(1.0 - v / d, d);
    SameSign(1.0 + v / d, d);
  }

  /** At every lag the normalised correlation lies in [-1, 1], whether or not the floor applies. */
  lemma NormalisedInUnit(t: seq<real>, c: seq<real>, s: nat, energy: real, local: real)
    requires c != [] && s + |c| <= |t|
    requires IsRoot(energy, SumSquares(Centred(c))) && IsRoot(local, LocalSquares(t, |c|, s))
    ensures -1.0 <= Normalised(t, c, s, energy, local) <= 1.0
  {
    hide Dot, SumSquares, PrefixSquares, Centred;
    var window := Centred(t)[s..s + |c|];
    PrefixDifference(Centred(t), s, |c|);
    CauchySchwarz(window, Centred(c));
    RootProduct(energy, local, SumSquares(Centred(c)), SumSquares(window));
    hide IsRoot, LocalSquares;
    RootOrder(energy * local, Correlation(t, c, s));
    QuotientInUnit(Correlation(t, c, s), if energy * local < FLOOR then FLOOR else energy * local);
  }

  /** Without a sweep nothing is reported: for an empty side, a candidate longer than the target or one
      that is nearly silent, in that order. */
  lemma NoSweep(t: seq<real>, c: seq<real>, segmentSeconds: real, energy: real, locals: seq<real>)
    requires AreRoots(t, c, energy, locals)
    ensures var r := AlignEnergy(t, c, segmentSeconds, energy, locals);
            && (r.note == EmptySequence <==> t == [] || c == [])
            && (r.note == CandidateTooLong <==> 0 < |t| < |c|)
            && (r.note == NearlySilent <==> 0 < |c| <= |t| && energy < 0.00000001)
            && (r.note != Swept ==> r.similarity == r.offset == r.peak == 0.0 && r.start == r.end == 0)
  {
    hide ArgMax, Clip01, Normalised;
  }

  /** What is compared at each lag, without the roots: the square of the correlation is the square of the
      dot product over the two energies, and has its sign; under the floor it is the dot product over the floor. */
  lemma NormalisedIs(t: seq<real>, c: seq<real>, s: nat, energy: real, local: real)
    requires c != [] && s + |c| <= |t|
    requires IsRoot(energy, SumSquares(Centred(c))) && IsRoot(local, LocalSquares(t, |c|, s))
    ensures var v, dot := Normalised(t, c, s, energy, local), Dot(Centred(t)[s..s + |c|], Centred(c));
            if energy * local < 0.00000001 then dot == v * 0.00000001
            else (v * v) * (SumSquares(Centred(t)[s..s + |c|]) * SumSquares(Centred(c))) == dot * dot && (v > 0.0 <==> dot > 0.0)
  {
    hide Dot, SumSquares, PrefixSquares, Centred;
    var window := Centred(t)[s..s + |c|];
    PrefixDifference(Centred(t), s, |c|);
    RootProduct(energy, local, SumSquares(Centred(c)), SumSquares(window));
    hide IsRoot, LocalSquares;
    var d := if energy * local < FLOOR then FLOOR else energy * local;
    var v := Normalised(t, c, s, energy, local);
    assert v == Correlation(t, c, s) / d;
    hide Normalised;
    QuotientIs(Correlation(t, c, s), d, v);
  }

  lemma QuotientIs(dot: real, d: real, v: real)
    requires d > 0.0 && v == dot / d
    ensures v * d == dot && (v * v) * (d * d) == dot * dot && (v > 0.0 <==> dot > 0.0)
  {
    assert v * d == dot;
    assert (v * v) * (d * d) == (v * d) * (v * d);
    SameSign(v, d);
  }

  /**
   The reported similarity is the largest normalised correlation, cut at 0 only; the window reported
   is the first that reaches it and lies inside the target.
   */
  lemma SweepResult(t: seq<real>, c: seq<real>, segmentSeconds: real, energy: real, locals: seq<real>, s: nat)
    requires AreRoots(t, c, energy, locals) && c != [] && s + |c| <= |t| && energy >= FLOOR
    ensures var r := AlignEnergy(t, c, segmentSeconds, energy, locals);
            && r.note == Swept
            && r.end - r.start + 1 == |c| && r.end < |t| && r.offset == r.start as real * segmentSeconds
            && -1.0 <= r.peak <= 1.0 && r.similarity == Positive(r.peak)
            && r.peak == Normalised(t, c, r.start, energy, locals[r.start])
            && Normalised(t, c, s, energy, locals[s]) <= r.peak
            && (s < r.start ==> Normalised(t, c, s, energy, locals[s]) < r.peak)
  {
    hide Normalised, LocalSquares, IsRoot, SumSquares;
    var r := AlignEnergy(t, c, segmentSeconds, energy, locals);
    var normalised := seq(|locals|, s requires 0 <= s < |locals| => Normalised(t, c, s, energy, locals[s]));
    assert normalised[s] == Normalised(t, c, s, energy, locals[s]);
    assert r.start == ArgMax(normalised);
    NormalisedInUnit(t, c, r.start, energy, locals[r.start]);
  }

  // ---------------------------------------------------------------------------
  // An exact excerpt
  // ---------------------------------------------------------------------------

  lemma {:induction false} SumShift(x: seq<real>, d: real)
    ensures Sum(Shift(x, d)) == Sum(x) - |x| as real * d
  {
    if x != [] {
      var n := |x| - 1;
      SumShift(x[..n], d);
      assert Shift(x, d)[..n] == Shift(x[..n], d);
      assert |x| as real * d == n as real * d + d;
    }
  }

  lemma CentredSumIsZero(x: seq<real>)
    requires x != []
    ensures Sum(Centred(x)) == 0.0
  {
    SumShift(x, Mean(x));
    assert Mean(x) * |x| as real == Sum(x);
  }

  lemma {:induction false} DotShift(x: seq<real>, d: real)
    ensures Dot(Shift(x, d), x) == SumSquares(x) - Times(d, Sum(x))
  {
    if x != [] {
      var n := |x| - 1;
      var y, front := x[n], x[..n];
      assert Shift(x, d)[..n] == Shift(front, d);
      LastTerms(x, Shift(x, d));
      hide Times, Dot, Sum, SumSquares, Shift;
      DotShift(front, d);
      TimesSpread(d, Sum(front), y);
      TimesShift(y, d);
    }
  }

  lemma {:induction false} LastTerms(x: seq<real>, z: seq<real>)
    requires x != [] && |z| == |x|
    ensures var n := |x| - 1;
            && Sum(x) == Sum(x[..n]) + x[n]
            && SumSquares(x) == SumSquares(x[..n]) + Times(x[n], x[n])
            && Dot(z, x) == Dot(z[..n], x[..n]) + Times(z[n], x[n])
  {
  }

  lemma TimesSpread(d: real, s: real, y: real)
    ensures Times(d, s + y) == Times(d, s) + Times(d, y)
  {
  }

  lemma TimesShift(y: real, d: real)
    ensures Times(y - d, y) == Times(y, y) - Times(d, y)
  {
  }

  lemma Spread(a: real, x: real, y: real)
    ensures a * (x + y) == a * x + a * y
  {
  }

  lemma Square(x: real, d: real)
    ensures (x - d) * (x - d) == x * x - 2.0 * (d * x) + d * d
  {
  }

  lemma {:induction false} SquaresShift(x: seq<real>, d: real)
    ensures SumSquares(Shift(x, d)) == SumSquares(x) - 2.0 * (d * Sum(x)) + |x| as real * (d * d)
  {
    if x != [] {
      var n := |x| - 1;
      SquaresShift(x[..n], d);
      assert Shift(x, d)[..n] == Shift(x[..n], d);
      Spread(d, Sum(x[..n]), x[n]);
      Spread(d * d, n as real, 1.0);
      Square(x[n], d);
    }
  }

  lemma ExcerptWindow(t: seq<real>, c: seq<real>, s: nat)
    requires c != [] && s + |c| <= |t| && t[s..s + |c|] == c
    ensures Centred(t)[s..s + |c|] == Shift(Centred(c), Mean(t) - Mean(c))
  {
    hide Mean;
    var window := Centred(t)[s..s + |c|];
    forall i | 0 <= i < |c| ensures window[i] == Centred(c)[i] - (Mean(t) - Mean(c)) {
      assert c[i] == t[s..s + |c|][i];
    }
  }

  /** A candidate cut out of the target at lag s correlates there with its whole energy. */
  lemma ExcerptCorrelation(t: seq<real>, c: seq<real>, s: nat)
    requires c != [] && s + |c| <= |t| && t[s..s + |c|] == c
    ensures Correlation(t, c, s) == SumSquares(Centred(c))
  {
    hide Mean, Centred, SumSquares, Dot, Sum, Shift;
    ExcerptWindow(t, c, s);
    CentredSumIsZero(c);
    DotShift(Centred(c), Mean(t) - Mean(c));
  }

  /** The target's energy under it exceeds that by |c| times the squared difference of the two means. */
  lemma ExcerptLocal(t: seq<real>, c: seq<real>, s: nat, d: real)
    requires c != [] && s + |c| <= |t| && t[s..s + |c|] == c && d == Mean(t) - Mean(c)
    ensures LocalSquares(t, |c|, s) == SumSquares(Centred(c)) + |c| as real * (d * d)
  {
    hide Mean, Centred, SumSquares, Dot, Sum, Shift, PrefixSquares, Positive;
    ExcerptWindow(t, c, s);
    CentredSumIsZero(c);
    PrefixDifference(Centred(t), s, |c|);
    SquaresShift(Centred(c), d);
  }

  /** Such a lag scores 1 exactly when the excerpt is as loud as the target on average and the floor does not apply. */
  lemma ExcerptScore(t: seq<real>, c: seq<real>, s: nat, energy: real, local: real)
    requires c != [] && s + |c| <= |t| && t[s..s + |c|] == c
    requires IsRoot(energy, SumSquares(Centred(c))) && IsRoot(local, LocalSquares(t, |c|, s)) && energy >= FLOOR
    ensures Normalised(t, c, s, energy, local) > 0.0
    ensures Normalised(t, c, s, energy, local) == 1.0 <==> Mean(t) == Mean(c) && energy * energy >= FLOOR
  {
    hide Mean, Centred, SumSquares, LocalSquares, Correlation;
    var d := Mean(t) - Mean(c);
    ExcerptCorrelation(t, c, s);
    ExcerptLocal(t, c, s, d);
    Excess(|c|, d);
    Ratio(energy, local, |c| as real * (d * d));
  }

  lemma Excess(m: nat, d: real)
    requires m > 0
    ensures m as real * (d * d) >= 0.0
    ensures m as real * (d * d) == 0.0 <==> d == 0.0
  {
    var s := d * d;
    SquareSign(d, s);
    ProductSign(m as real, s);
  }

  lemma SquareSign(d: real, s: real)
    requires s == d * d
    ensures s >= 0.0
    ensures s == 0.0 <==> d == 0.0
  {
    if d != 0.0 {
      var q := 1.0 / d;
      assert q * d == 1.0;
      assert q * q * s == (q * d) * (q * d);
    }
  }

  lemma ProductSign(a: real, s: real)
    requires a > 0.0 && s >= 0.0
    ensures a * s >= 0.0
    ensures a * s == 0.0 <==> s == 0.0
  {
    if s > 0.0 {
      PositiveProduct(a, s);
    }
  }

  lemma Ratio(e: real, l: real, excess: real)
    requires e >= FLOOR && l >= 0.0 && excess >= 0.0 && l * l == e * e + excess
    ensures var p := if e * l < FLOOR then FLOOR else e * l;
            && p > 0.0 && e * e / p > 0.0
            && (e * e / p == 1.0 <==> excess == 0.0 && e * e >= FLOOR)
  {
    RootOrder(l, e);
    PositiveProduct(e, e);
    if excess == 0.0 {
      RootOrder(e, l);
    } else {
      assert l != e;
      PositiveProduct(e, l - e);
    }
    QuotientIsOne(e * e, if e * l < FLOOR then FLOOR else e * l);
  }

  lemma QuotientIsOne(x: real, p: real)
    requires x > 0.0 && p > 0.0
    ensures x / p > 0.0 && (x / p == 1.0 <==> x == p)
  {
    var q := x / p;
    assert q * p == x;
  }

  /** Spread of the target's mean over an excerpt: |c| times the squared difference of the two means. */
  function Detuning(t: seq<real>, c: seq<real>): real
    requires t != [] && c != []
  {
    |c| as real * ((Mean(t) - Mean(c)) * (Mean(t) - Mean(c)))
  }

  /** The square of n is e / (e + w), and n reaches q exactly when q * q * w <= (1 - q * q) * e. */
  predicate ScoreIs(n: real, e: real, w: real, q: real) {
    n * n * (e + w) == e && (n >= q <==> q * q * w <= (1.0 - q * q) * e)
  }

  /** n is e / FLOOR, and it reaches q exactly when e >= q * FLOOR. */
  predicate FlooredScoreIs(n: real, e: real, q: real) {
    n == e / FLOOR && (n >= q <==> e >= q * FLOOR)
  }

  /**
   The exact score of an excerpt with energy E and detuning w. Without the floor its square is
   E / (E + w), and it reaches q exactly when q * q * w <= (1 - q * q) * E; under the floor it is
   E / FLOOR.
   */
  lemma ExcerptScoreExactly(t: seq<real>, c: seq<real>, s: nat, energy: real, local: real, q: real)
    requires c != [] && s + |c| <= |t| && t[s..s + |c|] == c && q >= 0.0
    requires IsRoot(energy, SumSquares(Centred(c))) && IsRoot(local, LocalSquares(t, |c|, s)) && energy >= FLOOR
    ensures var n, e, w := Normalised(t, c, s, energy, local), SumSquares(Centred(c)), Detuning(t, c);
            if energy * local >= FLOOR then ScoreIs(n, e, w, q) else FlooredScoreIs(n, e, q)
  {
    hide Mean, Centred, SumSquares, LocalSquares, Correlation;
    var d := Mean(t) - Mean(c);
    ExcerptCorrelation(t, c, s);
    ExcerptLocal(t, c, s, d);
    Excess(|c|, d);
    var n, w := Normalised(t, c, s, energy, local), Detuning(t, c);
    assert n == energy * energy / (if energy * local < FLOOR then FLOOR else energy * local);
    assert energy * energy == SumSquares(Centred(c)) && local * local == energy * energy + w && w >= 0.0;
    hide *;
    if energy * local >= FLOOR {
      ScoreAboveFloor(energy, local, Detuning(t, c), q);
    } else {
      QuotientReaches(energy * energy, FLOOR, q);
    }
  }

  lemma QuotientReaches(x: real, p: real, q: real)
    requires p == FLOOR
    ensures FlooredScoreIs(x / p, x, q)
  {
    assert x / p * p == x;
    SameSign(x / p - q, p);
    assert (x / p - q) * p == x / p * p - q * p;
  }

  lemma ScoreAboveFloor(e: real, l: real, w: real, q: real)
    requires e >= FLOOR && l >= 0.0 && w >= 0.0 && q >= 0.0 && l * l == e * e + w && e * l >= FLOOR
    ensures ScoreIs(e * e / (e * l), e * e, w, q)
  {
    assert l > 0.0;
    var n := e * e / (e * l);
    ScoreTimesLocal(e, l, n);
    SquareOfScore(e, l, n);
    SameSign(n - q, l);
    assert (n - q) * l == e - q * l;
    SquaresOrder(q * l, e);
    SquareOfProduct(q, l, e, w);
  }

  lemma ScoreTimesLocal(e: real, l: real, n: real)
    requires e > 0.0 && l > 0.0 && n == e * e / (e * l)
    ensures n * l == e
  {
    PositiveProduct(e, l);
    assert n * (e * l) == e * e;
    assert n * (e * l) == n * l * e;
    Cancel(n * l, e, e);
  }

  lemma Cancel(a: real, b: real, e: real)
    requires e > 0.0 && a * e == b * e
    ensures a == b
  {
    SameSign(a - b, e);
    SameSign(b - a, e);
  }

  lemma SquareOfScore(e: real, l: real, n: real)
    requires n * l == e
    ensures n * n * (l * l) == e * e
  {
    assert n * n * (l * l) == (n * l) * (n * l);
  }

  lemma SquaresOrder(a: real, b: real)
    requires a >= 0.0 && b >= 0.0
    ensures a <= b <==> a * a <= b * b
  {
    if a < b {
      SquaresGrow(a, b);
    } else if b < a {
      SquaresGrow(b, a);
    }
  }

  lemma SquareOfProduct(q: real, l: real, e: real, w: real)
    requires l * l == e * e + w
    ensures (q * l) * (q * l) <= e * e <==> q * q * w <= (1.0 - q * q) * (e * e)
  {
    assert (q * l) * (q * l) == q * q * (l * l);
    Spread(q * q, e * e, w);
    assert (1.0 - q * q) * (e * e) == e * e - q * q * (e * e);
  }

  /** The documented 0.70 is reached exactly while 49 times the detuning is at most 51 times the energy. */
  lemma SeventyPercent(t: seq<real>, c: seq<real>, s: nat, energy: real, local: real)
    requires c != [] && s + |c| <= |t| && t[s..s + |c|] == c
    requires IsRoot(energy, SumSquares(Centred(c))) && IsRoot(local, LocalSquares(t, |c|, s))
    requires energy >= FLOOR && energy * local >= FLOOR
    ensures Normalised(t, c, s, energy, local) >= 0.7 <==> 49.0 * Detuning(t, c) <= 51.0 * SumSquares(Centred(c))
  {
    hide Mean, Centred, SumSquares, LocalSquares, Correlation, Normalised, Detuning;
    ExcerptScoreExactly(t, c, s, energy, local, 0.7);
    assert ScoreIs(Normalised(t, c, s, energy, local), SumSquares(Centred(c)), Detuning(t, c), 0.7);
  }

  // ---------------------------------------------------------------------------
  // An excerpt that scores 0.6
  // ---------------------------------------------------------------------------

  const LOUD: seq<real> := [2.0, 2.0, 0.0, 0.0, 5.0, 5.0]
  const QUIET: seq<real> := [2.0, 2.0, 0.0, 0.0]

  lemma {:induction false} SumOnce(x: seq<real>, y: real)
    ensures Sum(x + [y]) == Sum(x) + y && SumSquares(x + [y]) == SumSquares(x) + y * y
  {
    assert (x + [y])[..|x|] == x;
  }

  lemma {:induction false} DotOnce(x: seq<real>, y: seq<real>, a: real, b: real)
    requires |x| == |y|
    ensures Dot(x + [a], y + [b]) == Dot(x, y) + a * b
  {
    assert (x + [a])[..|x|] == x && (y + [b])[..|y|] == y;
  }

  lemma Sum4(a: real, b: real, c: real, d: real)
    ensures Sum([a, b, c, d]) == a + b + c + d
    ensures SumSquares([a, b, c, d]) == a * a + b * b + c * c + d * d
  {
    SumOnce([], a);
    SumOnce([] + [a], b);
    SumOnce([] + [a] + [b], c);
    SumOnce([] + [a] + [b] + [c], d);
    assert [] + [a] + [b] + [c] + [d] == [a, b, c, d];
  }

  lemma Dot4(a: real, b: real, c: real, d: real)
    ensures Dot([a, b, c, d], [1.0, 1.0, -1.0, -1.0]) == a + b - c - d
  {
    var x, y := [1.0, 1.0, -1.0, -1.0], [a, b, c, d];
    DotOnce([], [], a, 1.0);
    DotOnce([] + [a], [] + [1.0], b, 1.0);
    DotOnce([] + [a] + [b], [] + [1.0] + [1.0], c, -1.0);
    DotOnce([] + [a] + [b] + [c], [] + [1.0] + [1.0] + [-1.0], d, -1.0);
    assert [] + [a] + [b] + [c] + [d] == y && [] + [1.0] + [1.0] + [-1.0] + [-1.0] == x;
  }

  lemma QuietIsCentred()
    ensures Mean(QUIET) == 1.0 && Centred(QUIET) == [1.0, 1.0, -1.0, -1.0] && SumSquares(Centred(QUIET)) == 4.0
  {
    Sum4(2.0, 2.0, 0.0, 0.0);
    Sum4(1.0, 1.0, -1.0, -1.0);
  }

  lemma LoudIsCentred()
    ensures Mean(LOUD) == 7.0 / 3.0 && |Centred(LOUD)| == 6
    ensures forall i :: 0 <= i < 6 ==> Centred(LOUD)[i] == LOUD[i] - 7.0 / 3.0
  {
    Sum4(2.0, 2.0, 0.0, 0.0);
    SumOnce([2.0, 2.0, 0.0, 0.0], 5.0);
    SumOnce([2.0, 2.0, 0.0, 0.0] + [5.0], 5.0);
    assert [2.0, 2.0, 0.0, 0.0] + [5.0] + [5.0] == LOUD;
  }

  lemma LoudCorrelations()
    ensures Correlation(LOUD, QUIET, 1) < 0.0 && Correlation(LOUD, QUIET, 2) < 0.0
  {
    QuietIsCentred();
    LoudIsCentred();
    var m := 7.0 / 3.0;
    Dot4(2.0 - m, 0.0 - m, 0.0 - m, 5.0 - m);
    Dot4(0.0 - m, 0.0 - m, 5.0 - m, 5.0 - m);
    assert Centred(LOUD)[1..5] == [2.0 - m, 0.0 - m, 0.0 - m, 5.0 - m];
    assert Centred(LOUD)[2..6] == [0.0 - m, 0.0 - m, 5.0 - m, 5.0 - m];
  }

  /** The first four segments of a target, found at their place with the best score of all lags: 0.6. */
  lemma ExcerptBelowSeventy(segmentSeconds: real, energy: real, locals: seq<real>)
    requires AreRoots(LOUD, QUIET, energy, locals)
    ensures LOUD[..4] == QUIET
    ensures var r := AlignEnergy(LOUD, QUIET, segmentSeconds, energy, locals);
            r.note == Swept && r.start == 0 && r.peak == 0.6 && r.similarity == 0.6
  {
    QuietIsCentred();
    LoudIsCentred();
    assert LOUD[0..4] == QUIET;
    RootOrder(2.0, energy);
    RootOrder(energy, 2.0);
    assert energy == 2.0;
    ExcerptLocal(LOUD, QUIET, 0, 4.0 / 3.0);
    assert IsRoot(locals[0], LocalSquares(LOUD, 4, 0));
    RootOrder(10.0 / 3.0, locals[0]);
    RootOrder(locals[0], 10.0 / 3.0);
    assert locals[0] == 10.0 / 3.0;
    ExcerptCorrelation(LOUD, QUIET, 0);
    LoudCorrelations();
    hide Correlation, LocalSquares, SumSquares, Centred;
    assert Normalised(LOUD, QUIET, 0, energy, locals[0]) == 0.6;
    assert Normalised(LOUD, QUIET, 1, energy, locals[1]) < 0.0 by {
      NegativeQuotient(Correlation(LOUD, QUIET, 1), if energy * locals[1] < FLOOR then FLOOR else energy * locals[1]);
    }
    assert Normalised(LOUD, QUIET, 2, energy, locals[2]) < 0.0 by {
      NegativeQuotient(Correlation(LOUD, QUIET, 2), if energy * locals[2] < FLOOR then FLOOR else energy * locals[2]);
    }
    var r := AlignEnergy(LOUD, QUIET, segmentSeconds, energy, locals);
    SweepResult(LOUD, QUIET, segmentSeconds, energy, locals, 0);
  }

  lemma NegativeQuotient(v: real, d: real)
    requires v < 0.0 && d > 0.0
    ensures v / d < 0.0
  {
    assert v / d * d == v;
    SameSign(v / d, d);
  }
}
