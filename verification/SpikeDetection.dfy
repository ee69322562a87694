/** The spike loop of `detect_sentiment_spikes` in `src/analytics/sentiment_trends.py`, over
    exact reals. */
module SpikeDetection {

  datatype Day = Day(date: string, score: real)

  datatype Spike = Spike(date: string, score: real, mean: real, deviation: real, positive: bool)

  function Sum(vs: seq<real>): real {
    if vs == [] then 0.0 else Sum(vs[..|vs| - 1]) + vs[|vs| - 1]
  }

  /** The sum of the squared distances from `m`. */
  function SquaresAround(vs: seq<real>, m: real): real {
    if vs == [] then 0.0
    else SquaresAround(vs[..|vs| - 1], m) + Square(vs[|vs| - 1] - m)
  }

  function Square(x: real): real { x * x }

  lemma SquareNonNegative(x: real)
    ensures x * x >= 0.0
  {
  }

  function Mean(vs: seq<real>): real
    requires vs != []
  {
    Sum(vs) / |vs| as real
  }

  function Variance(vs: seq<real>): real
    requires vs != []
  {
    SquaresAround(vs, Mean(vs)) / |vs| as real
  }

  function Abs(x: real): real { if x < 0.0 then -x else x }

  function Scores(days: seq<Day>): seq<real> {
    seq(|days|, i requires 0 <= i < |days| => days[i].score)
  }

  predicate Flagged(score: real, mean: real, limit: real) {
    Abs(score - mean) > limit
  }

  /** The days further than `limit` from the mean, oldest first. */
  function Spikes(days: seq<Day>, mean: real, limit: real): seq<Spike> {
    if days == [] then []
    else
      var d := days[|days| - 1];
      Spikes(days[..|days| - 1], mean, limit) +
      (if Flagged(d.score, mean, limit) then [Spike(d.date, d.score, mean, Abs(d.score - mean), d.score > mean)] else [])
  }

  /** The standard deviation: `s` is the nonnegative root of the variance. */
  predicate IsStdDev(vs: seq<real>, s: real)
    requires vs != []
  {
    s >= 0.0 && s * s == Variance(vs)
  }

  function Detect(days: seq<Day>, threshold: real, stdDev: real): seq<Spike> {
    if |days| < 3 || stdDev == 0.0 then [] else Spikes(days, Mean(Scores(days)), threshold * stdDev)
  }

  /** The method of the class; `stdDev` is what `math.sqrt` returns for the variance. */
  method DetectSentimentSpikes(days: seq<Day>, threshold: real, stdDev: real) returns (spikes: seq<Spike>)
    requires |days| >= 3 ==> IsStdDev(Scores(days), stdDev)
    ensures spikes == Detect(days, threshold, stdDev)
  {
    spikes := [];
    if |days| < 3 {
      return;
    }
    var values := Scores(days);
    var mean := ComputeMean(values);
    if stdDev == 0.0 {
      return;
    }
    for i := 0 to |days|
      invariant spikes == Spikes(days[..i], mean, threshold * stdDev)
    {
      assert days[..i + 1][..i] == days[..i];
      var deviation := Abs(days[i].score - mean);
      if deviation > threshold * stdDev {
        spikes := spikes + [Spike(days[i].date, days[i].score, mean, deviation, days[i].score > mean)];
      }
    }
    assert days[..|days|] == days;
  }

  method ComputeMean(values: seq<real>) returns (mean: real)
    requires values != []
    ensures mean == Mean(values)
  {
    var total := 0.0;
    for i := 0 to |values|
      invariant total == Sum(values[..i])
    {
      assert values[..i + 1][..i] == values[..i];
      total := total + values[i];
    }
    assert values[..|values|] == values;
    mean := total / |values| as real;
  }

  // ---------------------------------------------------------------------------------------
  // Real arithmetic

  lemma ProductNonNegative(a: real, b: real)
    requires a >= 0.0 && b >= 0.0
    ensures a * b >= 0.0
  {
  }

  lemma ProductPositive(a: real, b: real)
    requires a > 0.0 && b > 0.0
    ensures a * b > 0.0
  {
  }

  lemma Distribute(a: real, b: real, c: real)
    ensures (a + b) * c == a * c + b * c
    ensures (a - b) * c == a * c - b * c
  {
  }

  lemma ScaleAtMost(a: real, b: real, f: real)
    requires a <= b && f >= 0.0
    ensures a * f <= b * f
  {
    ProductNonNegative(b - a, f);
    Distribute(b, a, f);
  }

  lemma ScaleLess(a: real, b: real, f: real)
    requires a < b && f > 0.0
    ensures a * f < b * f
  {
    ProductPositive(b - a, f);
    Distribute(b, a, f);
  }

  lemma CancelLess(a: real, b: real, f: real)
    requires f > 0.0 && a * f < b * f
    ensures a < b
  {
    if a >= b { ScaleAtMost(b, a, f); }
  }

  lemma CancelAtMost(a: real, b: real, f: real)
    requires f > 0.0 && a * f <= b * f
    ensures a <= b
  {
    if a > b { ScaleLess(b, a, f); }
  }

  lemma SquareLess(a: real, b: real)
    requires 0.0 <= a < b
    ensures a * a < b * b
  {
    ProductPositive(b - a, b + a);
    assert (b - a) * (b + a) == b * b + b * a - a * b - a * a;
  }

  lemma SquareOfSum(a: real, b: real)
    ensures (a + b) * (a + b) == a * a + 2.0 * (a * b) + b * b
  {
    Distribute(a, b, a + b);
    Distribute(a, b, a);
    Distribute(a, b, b);
  }

  lemma Regroup(a: real, b: real)
    ensures a * b * (a * b) == a * a * (b * b)
  {
    assert a * b * (a * b) == a * (b * (a * b));
    assert b * (a * b) == a * (b * b);
  }

  lemma QuotientTimes(a: real, n: real)
    requires n != 0.0
    ensures a / n * n == a
  {
  }

  lemma AbsSquare(x: real)
    ensures Abs(x) * Abs(x) == x * x
  {
  }

  // ---------------------------------------------------------------------------------------
  // Chebyshev: few days can be flagged

  predicate IsSquare(sq: real, x: real) { sq == x * x }

  lemma SquaresSnoc(vs: seq<real>, v: real, m: real) returns (sq: real)
    ensures SquaresAround(vs + [v], m) == SquaresAround(vs, m) + sq
    ensures sq >= 0.0 && IsSquare(sq, v - m)
  {
    assert (vs + [v])[..|vs|] == vs;
    SquareNonNegative(v - m);
    sq := (v - m) * (v - m);
  }

  lemma SquareBeyond(sq: real, x: real, bound: real, limit: real)
    requires limit >= 0.0 && Abs(x) > limit && IsSquare(sq, x) && IsSquare(bound, limit)
    ensures sq > bound
  {
    SquareLess(limit, Abs(x));
    AbsSquare(x);
  }

  /** `k` copies of `b` added up. */
  function Times(k: nat, b: real): real {
    if k == 0 then 0.0 else Times(k - 1, b) + b
  }

  lemma {:induction false} TimesIsProduct(k: nat, b: real)
    ensures Times(k, b) == k as real * b
  {
    if k > 0 {
      TimesIsProduct(k - 1, b);
      Distribute((k - 1) as real, 1.0, b);
    }
  }

  lemma {:induction false} FlaggedSquares(days: seq<Day>, mean: real, limit: real, bound: real)
    requires limit >= 0.0 && IsSquare(bound, limit)
    ensures var k := |Spikes(days, mean, limit)|;
            SquaresAround(Scores(days), mean) >= Times(k, bound)
            && (k > 0 ==> SquaresAround(Scores(days), mean) > Times(k, bound))
  {
    if days != [] {
      var front, d := days[..|days| - 1], days[|days| - 1];
      FlaggedSquares(front, mean, limit, bound);
      var sq := SquaresSnoc(Scores(front), d.score, mean);
      assert Scores(days) == Scores(front) + [d.score];
      if Flagged(d.score, mean, limit) {
        SquareBeyond(sq, d.score - mean, bound, limit);
      }
    }
  }

  /** Chebyshev's inequality: the spikes of `n` days at a threshold `t >= 0` satisfy
      spikes * t^2 < n. */
  lemma SpikesAreFew(days: seq<Day>, threshold: real, stdDev: real)
    requires days != [] && threshold >= 0.0 && IsStdDev(Scores(days), stdDev)
    ensures FewerThan(|Detect(days, threshold, stdDev)|, threshold, |days|)
  {
    if Detect(days, threshold, stdDev) != [] {
      VarianceTimesCount(Scores(days));
      var mean, limit := Mean(Scores(days)), threshold * stdDev;
      ProductNonNegative(threshold, stdDev);
      FlaggedBeyond(days, mean, limit);
      ManyFlagged(|Spikes(days, mean, limit)|, |days|, threshold, stdDev, stdDev * stdDev, limit, SquaresAround(Scores(days), mean));
    } else {
      assert |Detect(days, threshold, stdDev)| as real * (threshold * threshold) == 0.0;
    }
  }

  predicate FewerThan(spikes: nat, t: real, n: nat) { spikes as real * (t * t) < n as real }

  /** The squares add up to `n` times the variance `v`. */
  predicate HasVariance(vs: seq<real>, m: real, v: real) { SquaresAround(vs, m) == v * |vs| as real }

  lemma VarianceTimesCount(vs: seq<real>)
    requires vs != []
    ensures HasVariance(vs, Mean(vs), Variance(vs))
  {
    QuotientTimes(SquaresAround(vs, Mean(vs)), |vs| as real);
  }

  lemma ManyFlagged(k: nat, n: nat, t: real, s: real, v: real, limit: real, squares: real)
    requires s > 0.0 && limit == t * s && IsSquare(v, s) && squares == v * n as real && Exceeds(squares, k, limit)
    ensures FewerThan(k, t, n)
  {
    var tt := t * t;
    ProductPositive(s, s);
    Regroup(t, s);
    Reassociate(k as real, tt, v);
    CancelLess(k as real * tt, n as real, v);
  }

  predicate Exceeds(squares: real, k: nat, limit: real) { squares > k as real * (limit * limit) }

  lemma FlaggedBeyond(days: seq<Day>, mean: real, limit: real)
    requires limit >= 0.0 && Spikes(days, mean, limit) != []
    ensures Exceeds(SquaresAround(Scores(days), mean), |Spikes(days, mean, limit)|, limit)
  {
    var bound := limit * limit;
    FlaggedSquares(days, mean, limit, bound);
    TimesIsProduct(|Spikes(days, mean, limit)|, bound);
  }

  lemma Reassociate(a: real, b: real, c: real)
    ensures a * b * c == a * (b * c)
  {
  }

  // ---------------------------------------------------------------------------------------
  // Samuelson: no day is far enough out when there are few days

  /** The sum of the signed distances from `m`. */
  function Deviations(vs: seq<real>, m: real): real {
    if vs == [] then 0.0 else Deviations(vs[..|vs| - 1], m) + (vs[|vs| - 1] - m)
  }

  lemma {:induction false} DeviationsFromSum(vs: seq<real>, m: real)
    ensures Deviations(vs, m) == Sum(vs) - Times(|vs|, m)
  {
    if vs != [] { DeviationsFromSum(vs[..|vs| - 1], m); }
  }

  lemma DeviationsCancel(vs: seq<real>)
    requires vs != []
    ensures Deviations(vs, Mean(vs)) == 0.0
  {
    DeviationsFromSum(vs, Mean(vs));
    TimesIsProduct(|vs|, Mean(vs));
    QuotientTimes(Sum(vs), |vs| as real);
  }

  predicate Bounded(s: real, n: real, q: real) { s * s <= n * q }

  lemma {:induction false} CauchySchwarz(vs: seq<real>, m: real)
    ensures Bounded(Deviations(vs, m), |vs| as real, SquaresAround(vs, m))
  {
    if vs != [] {
      var front, v := vs[..|vs| - 1], vs[|vs| - 1];
      CauchySchwarz(front, m);
      var sq := SquaresSnoc(front, v, m);
      assert vs == front + [v];
      CauchyStep(|front| as real, SquaresAround(front, m), Deviations(front, m), v - m, sq);
    }
  }

  lemma CauchyStep(n: real, q: real, s: real, x: real, xx: real)
    requires Bounded(s, n, q) && IsSquare(xx, x) && (n >= 1.0 || n == q == s == 0.0)
    ensures Bounded(s + x, n + 1.0, q + xx)
  {
    if n >= 1.0 {
      SquareOfSum(s, x);
      Distribute(n, 1.0, q + xx);
      Distribute(q, xx, n);
      TwiceProduct(n, q, s, x);
    }
  }

  /** From (s - n x)^2 >= 0. */
  lemma TwiceProduct(n: real, q: real, s: real, x: real)
    requires n >= 1.0 && s * s <= n * q
    ensures 2.0 * (s * x) <= q + n * (x * x)
  {
    var y := -(n * x);
    SquareNonNegative(s + y);
    SquareOfSum(s, y);
    Regroup(n, x);
    assert y * y == n * x * (n * x);
    assert s * y == -(n * (s * x));
    Reassociate(n, n, x * x);
    Distribute(q, n * (x * x), n);
    CancelAtMost(2.0 * (s * x), q + n * (x * x), n);
  }

  /** Taking out one value. */
  function Without(vs: seq<real>, i: nat): seq<real>
    requires i < |vs|
  {
    vs[..i] + vs[i + 1..]
  }

  lemma {:induction false} SumsWithout(vs: seq<real>, i: nat, m: real, sq: real)
    requires i < |vs| && IsSquare(sq, vs[i] - m)
    ensures Deviations(vs, m) == Deviations(Without(vs, i), m) + (vs[i] - m)
    ensures SquaresAround(vs, m) == SquaresAround(Without(vs, i), m) + sq
  {
    var n := |vs| - 1;
    var last := SquaresSnoc(vs[..n], vs[n], m);
    assert vs == vs[..n] + [vs[n]];
    if i == n {
      assert Without(vs, i) == vs[..n];
    } else {
      SumsWithout(vs[..n], i, m, sq);
      var rest := Without(vs[..n], i);
      var _ := SquaresSnoc(rest, vs[n], m);
      assert Without(vs, i) == rest + [vs[n]];
      assert (rest + [vs[n]])[..|rest|] == rest;
    }
  }

  /** Samuelson's inequality: no value is further than sqrt(n - 1) standard deviations from the
      mean. */
  lemma SamuelsonInequality(vs: seq<real>, i: nat)
    requires i < |vs|
    ensures Square(vs[i] - Mean(vs)) <= (|vs| - 1) as real * Variance(vs)
  {
    DeviationsCancel(vs);
    VarianceTimesCount(vs);
    SamuelsonAround(vs, i, Mean(vs), Variance(vs));
  }

  lemma SamuelsonAround(vs: seq<real>, i: nat, m: real, v: real)
    requires i < |vs| && Deviations(vs, m) == 0.0 && HasVariance(vs, m, v)
    ensures Square(vs[i] - m) <= (|vs| - 1) as real * v
  {
    RestOutweighs(vs, i, m);
    OneAgainstRest(|vs| as real, SquaresAround(vs, m), v, vs[i] - m);
  }

  lemma RestOutweighs(vs: seq<real>, i: nat, m: real)
    requires i < |vs| && Deviations(vs, m) == 0.0
    ensures Outweighed(vs[i] - m, |vs| as real, SquaresAround(vs, m))
  {
    var d, sq := vs[i] - m, Square(vs[i] - m);
    SumsWithout(vs, i, m, sq);
    CauchySchwarz(Without(vs, i), m);
    SwapSign(d, |vs| as real, SquaresAround(vs, m), Deviations(Without(vs, i), m), SquaresAround(Without(vs, i), m));
  }

  /** The square of `d` is at most `n - 1` times what the other squares add up to. */
  predicate Outweighed(d: real, n: real, q: real) { Square(d) <= (n - 1.0) * (q - Square(d)) }

  lemma SwapSign(d: real, n: real, q: real, rest: real, squares: real)
    requires rest == -d && q == squares + Square(d) && Bounded(rest, n - 1.0, squares)
    ensures Outweighed(d, n, q)
  {
    assert rest * rest == d * d;
  }

  lemma OneAgainstRest(n: real, q: real, v: real, d: real)
    requires n >= 1.0 && q == v * n && Outweighed(d, n, q)
    ensures Square(d) <= (n - 1.0) * v
  {
    var dd := Square(d);
    Distribute(n, 1.0, q - dd);
    Distribute(q, dd, n);
    Distribute(n, 1.0, v);
    Distribute(n * v, v, n);
    CancelAtMost(dd, (n - 1.0) * v, n);
  }

  lemma {:induction false} NothingFlagged(days: seq<Day>, mean: real, limit: real)
    requires forall i | 0 <= i < |days| :: !Flagged(days[i].score, mean, limit)
    ensures Spikes(days, mean, limit) == []
  {
    if days != [] { NothingFlagged(days[..|days| - 1], mean, limit); }
  }

  lemma AtMostBySquares(a: real, b: real)
    requires a >= 0.0 && b >= 0.0 && a * a <= b * b
    ensures a <= b
  {
    if a > b { SquareLess(b, a); }
  }

  /** So no day is flagged when threshold^2 >= n - 1. */
  lemma NoSpikesAmongFewDays(days: seq<Day>, threshold: real, stdDev: real)
    requires days != [] && threshold >= 0.0 && IsStdDev(Scores(days), stdDev)
    requires threshold * threshold >= (|days| - 1) as real
    ensures Detect(days, threshold, stdDev) == []
  {
    var vs, limit := Scores(days), threshold * stdDev;
    ProductNonNegative(threshold, stdDev);
    SquareNonNegative(stdDev);
    ScaleAtMost((|days| - 1) as real, threshold * threshold, stdDev * stdDev);
    Regroup(threshold, stdDev);
    forall i | 0 <= i < |days| ensures !Flagged(days[i].score, Mean(vs), limit) {
      var d := days[i].score - Mean(vs);
      SamuelsonInequality(vs, i);
      AbsSquare(d);
      AtMostBySquares(Abs(d), limit);
    }
    NothingFlagged(days, Mean(vs), limit);
  }

  /** At the default threshold 2.0 nothing is ever flagged in windows of three to five days. */
  lemma DefaultThresholdNeedsSixDays(days: seq<Day>, stdDev: real)
    requires 3 <= |days| <= 5 && IsStdDev(Scores(days), stdDev)
    ensures Detect(days, 2.0, stdDev) == []
  {
    NoSpikesAmongFewDays(days, 2.0, stdDev);
  }

  /** One outlier among `n - 1` equal days. */
  function Outlier(n: nat): seq<Day>
    requires n >= 1
  {
    [Day("first", (n - 1) as real)] + seq(n - 1, _ => Day("other", -1.0))
  }

  function OutlierScores(first: real, others: nat): seq<real> {
    [first] + seq(others, _ => -1.0)
  }

  lemma {:induction false} OutlierMoments(first: real, others: nat, sq: real)
    requires IsSquare(sq, first - 0.0)
    ensures Sum(OutlierScores(first, others)) == first - others as real
    ensures SquaresAround(OutlierScores(first, others), 0.0) == sq + others as real
  {
    var vs := OutlierScores(first, others);
    if others == 0 {
      assert vs == [] + [first];
      var _ := SquaresSnoc([], first, 0.0);
    } else {
      var front := OutlierScores(first, others - 1);
      OutlierMoments(first, others - 1, sq);
      assert vs == front + [-1.0] && vs[..others] == front;
      var one := SquaresSnoc(front, -1.0, 0.0);
      assert one == 1.0;
    }
  }

  lemma OutlierSpread(n: nat)
    requires n >= 1
    ensures Mean(Scores(Outlier(n))) == 0.0 && Variance(Scores(Outlier(n))) == (n - 1) as real
  {
    var m := (n - 1) as real;
    assert Scores(Outlier(n)) == OutlierScores(m, n - 1);
    OutlierMoments(m, n - 1, m * m);
    assert m * m + m == m * n as real;
  }

  lemma {:induction false} FirstFlagged(days: seq<Day>, mean: real, limit: real)
    requires days != [] && Flagged(days[0].score, mean, limit)
    ensures Spikes(days, mean, limit) != []
  {
    if |days| > 1 { FirstFlagged(days[..|days| - 1], mean, limit); }
  }

  ghost predicate NeverFlags(n: nat, threshold: real) {
    forall days, stdDev | |days| == n && n > 0 && IsStdDev(Scores(days), stdDev) :: Detect(days, threshold, stdDev) == []
  }

  /** The bound is sharp: `n` days can never produce a spike exactly when threshold^2 >= n - 1.
      (`r` is the root of n - 1, which the exact reals of the model have to be given.) */
  lemma SpikesNeedLowThreshold(n: nat, threshold: real, r: real)
    requires n >= 3 && threshold >= 0.0 && r >= 0.0 && IsSquare((n - 1) as real, r)
    ensures NeverFlags(n, threshold) <==> threshold * threshold >= (n - 1) as real
  {
    if threshold * threshold >= (n - 1) as real {
      forall days, stdDev | |days| == n && IsStdDev(Scores(days), stdDev)
        ensures Detect(days, threshold, stdDev) == []
      {
        NoSpikesAmongFewDays(days, threshold, stdDev);
      }
    } else {
      OutlierSpread(n);
      BelowRoot(threshold, r);
      FirstFlagged(Outlier(n), 0.0, threshold * r);
      assert IsStdDev(Scores(Outlier(n)), r) && Detect(Outlier(n), threshold, r) != [];
    }
  }

  lemma BelowRoot(t: real, r: real)
    requires 0.0 <= t && 0.0 <= r && t * t < r * r
    ensures 0.0 < r && t * r < r * r
  {
    if t >= r { ScaleAtMost(r, t, r); ScaleAtMost(r, t, t); }
    ScaleLess(t, r, r);
  }

  // ---------------------------------------------------------------------------------------
  // What a spike says

  /** The spike of a day beyond the mean by more than `limit`, above or below. */
  predicate IsSpikeOf(s: Spike, d: Day, mean: real, limit: real) {
    && (d.score > mean + limit || d.score < mean - limit)
    && s.date == d.date && s.score == d.score && s.mean == mean
    && s.deviation == (if d.score > mean then d.score - mean else mean - d.score)
    && (s.positive <==> d.score > mean)
  }

  lemma {:induction false} SpikesOfDays(days: seq<Day>, mean: real, limit: real, s: Spike)
    requires limit >= 0.0
    ensures s in Spikes(days, mean, limit) <==> exists i :: 0 <= i < |days| && IsSpikeOf(s, days[i], mean, limit)
  {
    if days != [] {
      var n := |days| - 1;
      SpikesOfDays(days[..n], mean, limit, s);
      if i :| 0 <= i < n && IsSpikeOf(s, days[..n][i], mean, limit) { assert IsSpikeOf(s, days[i], mean, limit); }
      if i :| 0 <= i < |days| && IsSpikeOf(s, days[i], mean, limit) {
        if i < n { assert IsSpikeOf(s, days[..n][i], mean, limit); }
      }
    }
  }

  /** Detection reports exactly the days, at least three of them, that are more than `threshold`
      standard deviations above or below the mean, each with its date, score, deviation and
      direction. */
  lemma DetectsExactly(days: seq<Day>, threshold: real, stdDev: real, s: Spike)
    requires days != [] && threshold >= 0.0 && IsStdDev(Scores(days), stdDev)
    ensures s in Detect(days, threshold, stdDev) <==>
            |days| >= 3 && stdDev > 0.0 && exists i :: 0 <= i < |days| && IsSpikeOf(s, days[i], Mean(Scores(days)), threshold * stdDev)
  {
    ProductNonNegative(threshold, stdDev);
    SpikesOfDays(days, Mean(Scores(days)), threshold * stdDev, s);
  }

  /** ... in the order of the days, one for each. */
  lemma {:induction false} SpikesInOrder(a: seq<Day>, b: seq<Day>, mean: real, limit: real)
    ensures Spikes(a + b, mean, limit) == Spikes(a, mean, limit) + Spikes(b, mean, limit)
  {
    if b == [] {
      assert a + b == a;
    } else {
      var n := |b| - 1;
      SpikesInOrder(a, b[..n], mean, limit);
      assert (a + b)[..|a + b| - 1] == a + b[..n];
    }
  }
}
