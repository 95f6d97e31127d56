/**
 * The EWMA detector (`Ewma.update` and the anomaly block of `on_telemetry`,
 * backend/app/anomaly.py:49-70 and 303-327), over the reals.  Standard deviations are
 * compared through their squares, so no square root is needed.
 */
module EwmaDetector {
  import opened Common

  datatype Ewma = Ewma(mean: real, variance: real, n: nat)

  const FRESH := Ewma(0.0, 0.0, 0)

  /** A product, named so that proofs can keep it folded. */
  function Times(a: real, b: real): real { a * b }

  function Square(a: real): real { a * a }

  function Larger(a: real, b: real): real { if a > b then a else b }

  /** `update`: the first sample is taken as it is; `learn` false moves the mean only. */
  function Update(e: Ewma, x: real, alpha: real, learn: bool): Ewma {
    if e.n == 0 then Ewma(x, 0.0, 1)
    else Ewma(NewMean(e.mean, x, alpha), if learn then NewVariance(e.variance, e.mean, x, alpha) else e.variance, e.n + 1)
  }

  function NewMean(m: real, x: real, alpha: real): real { m + alpha * (x - m) }

  function NewVariance(v: real, m: real, x: real, alpha: real): real {
    (1.0 - alpha) * (v + alpha * (x - m) * (x - m))
  }

  datatype Params = Params(alpha: real, z: real, minStd: real, warmup: nat, sustain: nat, sustainS: real)

  predicate Sane(p: Params) {
    0.0 < p.alpha < 1.0 && p.z >= 0.0 && p.minStd >= 0.0
  }

  /** The variance the z-score is measured against: `max(sqrt(var), min_std)` squared. */
  function Scale(p: Params, e: Ewma): real { Larger(e.variance, Square(p.minStd)) }

  function Off(e: Ewma, x: real): real { x - e.mean }

  /** `z > zlim` for a warm metric, as `d*d > z*z*scale`; a zero scale makes z zero. */
  predicate Exceeds(p: Params, e: Ewma, x: real) {
    Scale(p, e) > 0.0 && Square(Off(e, x)) > Times(Square(p.z), Scale(p, e))
  }

  predicate Hot(p: Params, e: Ewma, x: real, gated: bool) {
    e.n >= p.warmup && Exceeds(p, e, x) && !gated
  }

  /** One sample: an anomalous one moves the mean at a tenth of the speed and freezes the variance. */
  function Sample(p: Params, e: Ewma, x: real, gated: bool): Ewma {
    var hot := Hot(p, e, x, gated);
    Update(e, x, if hot then p.alpha * 0.1 else p.alpha, !hot)
  }

  // ------------------------------------------------------------ the object

  /** The operating-point gate: how far the gate metric may be from its own recent mean. */
  datatype GateParams = GateParams(alpha: real, warmup: nat, frac: real, abs: real)

  function Magnitude(a: real): real { if a < 0.0 then -a else a }

  /** The metric is away from its mean by more than a fraction of that mean and an absolute margin. */
  predicate Moving(g: GateParams, e: Ewma, x: real) {
    && e.n >= g.warmup
    && Magnitude(x - e.mean) > g.abs && Magnitude(x - e.mean) > g.frac * Magnitude(e.mean)
  }

  /** The gate metric's own estimate, which always learns at full speed. */
  class Gate {
    var e: Ewma

    constructor ()
      ensures e == FRESH
    {
      e := FRESH;
    }

    method OnSample(g: GateParams, x: real) returns (moving: bool)
      modifies this
      ensures moving == Moving(g, old(e), x) && e == Update(old(e), x, g.alpha, true)
    {
      moving := false;
      if e.n >= g.warmup {
        var bound := Larger(g.frac * Magnitude(e.mean), g.abs);
        moving := Magnitude(x - e.mean) > bound;
      }
      e := Update(e, x, g.alpha, true);
    }
  }

  /** Of the two margins the larger one counts, and a cold gate never moves. */
  lemma MovingIs(g: GateParams, e: Ewma, x: real)
    ensures Moving(g, e, x) <==> e.n >= g.warmup && Magnitude(x - e.mean) > Larger(g.frac * Magnitude(e.mean), g.abs)
  {}

  /** One sample of a metric: its value, whether the operating point moves, and the time. */
  datatype Obs = Obs(x: real, gated: bool, now: real)

  /** What is kept per metric: the estimate, and how many samples in a row were hot, and since when. */
  datatype Watch = Watch(e: Ewma, streak: nat, since: Option<real>)

  const UNSEEN := Watch(FRESH, 0, None)

  function Observe(p: Params, w: Watch, o: Obs): Watch {
    var e := Sample(p, w.e, o.x, o.gated);
    if Hot(p, w.e, o.x, o.gated) then Watch(e, w.streak + 1, if w.since.None? then Some(o.now) else w.since)
    else Watch(e, 0, None)
  }

  /** Whether the anomaly rule is true at `now`. */
  predicate Reports(p: Params, w: Watch, now: real) {
    w.streak >= p.sustain && now - (if w.since.Some? then w.since.value else now) >= p.sustainS
  }

  class Detector {
    var e: Ewma
    var streak: nat
    var since: Option<real>

    ghost function View(): Watch
      reads this
    {
      Watch(e, streak, since)
    }

    constructor ()
      ensures View() == UNSEEN
    {
      e, streak, since := FRESH, 0, None;
    }

    /** Evaluates and absorbs one sample; tells whether the anomaly rule is true now. */
    method OnSample(p: Params, o: Obs) returns (cond: bool)
      modifies this
      ensures View() == Observe(p, old(View()), o)
      ensures cond == Reports(p, View(), o.now)
    {
      var hot := Hot(p, e, o.x, o.gated);
      e := Update(e, o.x, if hot then p.alpha * 0.1 else p.alpha, !hot);
      if hot {
        streak := streak + 1;
        if since.None? {
          since := Some(o.now);
        }
      } else {
        streak, since := 0, None;
      }
      cond := streak >= p.sustain && o.now - (if since.Some? then since.value else o.now) >= p.sustainS;
    }
  }

  // ------------------------------------------------------------ bounds in every mode

  function Low(xs: seq<real>): real
    requires xs != []
  {
    if |xs| == 1 then xs[0] else var m := Low(xs[..|xs| - 1]); if xs[|xs| - 1] < m then xs[|xs| - 1] else m
  }

  function High(xs: seq<real>): real
    requires xs != []
  {
    if |xs| == 1 then xs[0] else var m := High(xs[..|xs| - 1]); if xs[|xs| - 1] > m then xs[|xs| - 1] else m
  }

  /** A history of samples, each absorbed with its own speed and learning mode. */
  datatype Fed = Fed(x: real, alpha: real, learn: bool)

  function Values(h: seq<Fed>): (xs: seq<real>)
    ensures |xs| == |h| && forall i :: 0 <= i < |h| ==> xs[i] == h[i].x
  {
    seq(|h|, i requires 0 <= i < |h| => h[i].x)
  }

  function Absorb(h: seq<Fed>): Ewma {
    if h == [] then FRESH else var f := h[|h| - 1]; Update(Absorb(h[..|h| - 1]), f.x, f.alpha, f.learn)
  }

  lemma Between(m: real, x: real, alpha: real, lo: real, hi: real)
    requires lo <= m <= hi && lo <= x <= hi && 0.0 <= alpha <= 1.0
    ensures lo <= m + alpha * (x - m) <= hi
  {
    assert m + alpha * (x - m) == (1.0 - alpha) * m + alpha * x;
    assert (1.0 - alpha) * (m - lo) >= 0.0 && alpha * (x - lo) >= 0.0;
    assert (1.0 - alpha) * (hi - m) >= 0.0 && alpha * (hi - x) >= 0.0;
  }

  lemma VarianceGrows(v: real, d: real, alpha: real)
    requires v >= 0.0 && 0.0 <= alpha <= 1.0
    ensures (1.0 - alpha) * (v + alpha * d * d) >= 0.0
  {
    assert d * d >= 0.0;
    assert alpha * (d * d) >= 0.0 && alpha * d * d == alpha * (d * d);
  }

  lemma UpdateInRange(e: Ewma, f: Fed, lo: real, hi: real)
    requires e.variance >= 0.0 && 0.0 <= f.alpha <= 1.0 && lo <= f.x <= hi && (e.n > 0 ==> lo <= e.mean <= hi)
    ensures var u := Update(e, f.x, f.alpha, f.learn); u.variance >= 0.0 && u.n == e.n + 1 && lo <= u.mean <= hi
  {
    VarianceGrows(e.variance, f.x - e.mean, f.alpha);
    if e.n > 0 {
      Between(e.mean, f.x, f.alpha, lo, hi);
    }
  }

  /** In every mode the variance is non-negative and the mean stays among the samples seen. */
  lemma {:induction false} MeanInRange(h: seq<Fed>)
    requires h != [] && forall i :: 0 <= i < |h| ==> 0.0 <= h[i].alpha <= 1.0
    ensures Absorb(h).variance >= 0.0 && Absorb(h).n == |h|
    ensures Low(Values(h)) <= Absorb(h).mean <= High(Values(h))
    decreases |h|
  {
    hide Update;
    var f, g := h[|h| - 1], h[..|h| - 1];
    assert Values(h)[..|h| - 1] == Values(g) && Values(h)[|h| - 1] == f.x;
    if g != [] {
      MeanInRange(g);
    } else {
      assert Absorb(g) == FRESH;
    }
    UpdateInRange(Absorb(g), f, Low(Values(h)), High(Values(h)));
  }

  // ------------------------------------------------------------ the directly defined mean and variance

  function Pow(b: real, k: nat): real {
    if k == 0 then 1.0 else Times(b, Pow(b, k - 1))
  }

  /** The weight of sample `i` of `n`: the first carries the whole remaining tail. */
  function Weight(alpha: real, n: nat, i: nat): real
    requires i < n
  {
    if i == 0 then Pow(1.0 - alpha, n - 1) else alpha * Pow(1.0 - alpha, n - 1 - i)
  }

  /** The weighted mean of the first `k` of `n` samples, undivided (the weights of all `n` sum to 1). */
  function WeightedSum(alpha: real, n: nat, xs: seq<real>, k: nat): real
    requires k <= n && k <= |xs|
  {
    if k == 0 then 0.0 else WeightedSum(alpha, n, xs, k - 1) + Times(Weight(alpha, n, k - 1), xs[k - 1])
  }

  function WeightedSquares(alpha: real, n: nat, xs: seq<real>, c: real, k: nat): real
    requires k <= n && k <= |xs|
  {
    if k == 0 then 0.0
    else WeightedSquares(alpha, n, xs, c, k - 1) + Times(Weight(alpha, n, k - 1), Square(xs[k - 1] - c))
  }

  function DirectMean(alpha: real, xs: seq<real>): real { WeightedSum(alpha, |xs|, xs, |xs|) }

  function DirectVariance(alpha: real, xs: seq<real>): real {
    WeightedSquares(alpha, |xs|, xs, DirectMean(alpha, xs), |xs|)
  }

  function Incremental(alpha: real, xs: seq<real>): Ewma {
    if xs == [] then FRESH else Update(Incremental(alpha, xs[..|xs| - 1]), xs[|xs| - 1], alpha, true)
  }

  lemma WeightDecays(alpha: real, n: nat, i: nat)
    requires i < n
    ensures Weight(alpha, n + 1, i) == Times(1.0 - alpha, Weight(alpha, n, i))
  {
    var q := 1.0 - alpha;
    if i == 0 {
      assert Pow(q, n) == q * Pow(q, n - 1);
    } else {
      assert Pow(q, n - i) == q * Pow(q, n - 1 - i);
      assert alpha * (q * Pow(q, n - 1 - i)) == q * (alpha * Pow(q, n - 1 - i));
    }
  }

  function TotalWeight(alpha: real, n: nat, k: nat): real
    requires k <= n
  {
    if k == 0 then 0.0 else TotalWeight(alpha, n, k - 1) + Times(Weight(alpha, n, k - 1), 1.0)
  }

  lemma {:induction false} SumsDecay(alpha: real, n: nat, xs: seq<real>, ys: seq<real>, c: real, k: nat)
    requires k <= n && k <= |xs| && k <= |ys| && forall i :: 0 <= i < k ==> xs[i] == ys[i]
    ensures TotalWeight(alpha, n + 1, k) == Times(1.0 - alpha, TotalWeight(alpha, n, k))
    ensures WeightedSum(alpha, n + 1, xs, k) == Times(1.0 - alpha, WeightedSum(alpha, n, ys, k))
    ensures WeightedSquares(alpha, n + 1, xs, c, k) == Times(1.0 - alpha, WeightedSquares(alpha, n, ys, c, k))
    decreases k
  {
    hide Weight, Times, Square;
    var q := 1.0 - alpha;
    if k > 0 {
      SumsDecay(alpha, n, xs, ys, c, k - 1);
      WeightDecays(alpha, n, k - 1);
      var w, x := Weight(alpha, n, k - 1), xs[k - 1];
      Distribute(q, TotalWeight(alpha, n, k - 1), w, 1.0);
      Distribute(q, WeightedSum(alpha, n, ys, k - 1), w, x);
      Distribute(q, WeightedSquares(alpha, n, ys, c, k - 1), w, Square(x - c));
    } else {
      assert Times(q, 0.0) == 0.0 by { TimesZero(q); }
    }
  }

  lemma TimesZero(q: real)
    ensures Times(q, 0.0) == 0.0
  {}

  lemma Distribute(q: real, s: real, w: real, t: real)
    ensures Times(q, s) + Times(Times(q, w), t) == Times(q, s + Times(w, t))
  {
    assert q * s + (q * w) * t == q * (s + w * t);
  }

  /** The weights sum to one. */
  lemma {:induction false} WeightsSumToOne(alpha: real, n: nat)
    requires n >= 1
    ensures TotalWeight(alpha, n, n) == 1.0
    decreases n
  {
    if n == 1 {
      assert TotalWeight(alpha, 1, 0) == 0.0 && Weight(alpha, 1, 0) == Pow(1.0 - alpha, 0);
    } else {
      WeightsSumToOne(alpha, n - 1);
      SumsDecay(alpha, n - 1, seq(n - 1, _ => 0.0), seq(n - 1, _ => 0.0), 0.0, n - 1);
      assert Weight(alpha, n, n - 1) == alpha * Pow(1.0 - alpha, 0);
    }
  }

  /** Sums of squares about `m`, moved to the centre `c`. */
  function Moved(sq: real, s: real, t: real, m: real, c: real): real {
    sq + Times(2.0 * (m - c), s - Times(m, t)) + Times(Square(m - c), t)
  }

  lemma MovedStep(sq: real, s: real, t: real, w: real, x: real, m: real, c: real)
    ensures Moved(sq, s, t, m, c) + Times(w, Square(x - c))
         == Moved(sq + Times(w, Square(x - m)), s + Times(w, x), t + Times(w, 1.0), m, c)
  {
    hide Times, Square;
    var b := m - c;
    WeightedSquareOfSum(w, x - m, b);
    TimesPlus(2.0 * b, s - Times(m, t), Times(w, x - m));
    TimesPlus(w, x, -m);
    TimesPlus(m, t, w);
    TimesFlip(w, m);
    TimesPlus(Square(b), t, w);
  }

  lemma WeightedSquareOfSum(w: real, a: real, b: real)
    ensures Times(w, Square(a + b)) == Times(w, Square(a)) + Times(2.0 * b, Times(w, a)) + Times(Square(b), w)
  {
    SquareOfSum(a, b);
    var s, t, u := a * a, b * a, b * b;
    assert w * (s + 2.0 * t + u) == w * s + 2.0 * (w * t) + u * w;
    MoveWeight(w, a, b);
  }

  lemma SquareOfSum(a: real, b: real)
    ensures Square(a + b) == a * a + 2.0 * (b * a) + b * b
  {}

  lemma MoveWeight(w: real, a: real, b: real)
    ensures 2.0 * (w * (b * a)) == (2.0 * b) * (w * a)
  {}

  lemma TimesPlus(k: real, u: real, v: real)
    ensures Times(k, u) + Times(k, v) == Times(k, u + v)
  {}

  lemma TimesFlip(a: real, b: real)
    ensures Times(a, -b) == -Times(b, a) && Times(a, 1.0) == a
  {}

  /** Moving the centre of the squares from `m` to `c`. */
  lemma {:induction false} SquaresMove(alpha: real, n: nat, xs: seq<real>, m: real, c: real, k: nat)
    requires k <= n && k <= |xs|
    ensures WeightedSquares(alpha, n, xs, c, k)
         == Moved(WeightedSquares(alpha, n, xs, m, k), WeightedSum(alpha, n, xs, k), TotalWeight(alpha, n, k), m, c)
    decreases k
  {
    if k > 0 {
      hide Weight, Times, Square, Moved;
      SquaresMove(alpha, n, xs, m, c, k - 1);
      MovedStep(WeightedSquares(alpha, n, xs, m, k - 1), WeightedSum(alpha, n, xs, k - 1), TotalWeight(alpha, n, k - 1),
                Weight(alpha, n, k - 1), xs[k - 1], m, c);
    }
  }

  lemma MovedFromMean(sq: real, m: real, c: real)
    ensures Moved(sq, m, 1.0, m, c) == sq + Square(m - c)
  {
    assert Times(m, 1.0) == m;
  }

  lemma MeanIdentity(m: real, x: real, alpha: real)
    ensures Times(1.0 - alpha, m) + Times(alpha, x) == NewMean(m, x, alpha)
  {}

  lemma VarianceIdentity(v: real, m: real, x: real, alpha: real)
    ensures var m' := NewMean(m, x, alpha);
            Times(1.0 - alpha, v + Square(m - m')) + Times(alpha, Square(x - m')) == NewVariance(v, m, x, alpha)
  {
    var d := x - m;
    var m' := m + alpha * d;
    var q, s := 1.0 - alpha, d * d;
    assert m - m' == -(alpha * d) && x - m' == q * d;
    assert (m - m') * (m - m') == alpha * alpha * s;
    assert (x - m') * (x - m') == q * q * s;
    assert alpha * (q * q * s) == q * (alpha * q * s);
    assert q * (v + alpha * alpha * s) + q * (alpha * q * s) == q * (v + (alpha * alpha * s + alpha * q * s));
    assert alpha * alpha * s + alpha * q * s == alpha * (alpha + q) * s == alpha * s;
    assert alpha * d * d == alpha * s;
  }

  /** The direct mean and variance of one sample more. */
  lemma DirectStep(alpha: real, xs: seq<real>)
    requires |xs| >= 2
    ensures var f, x := xs[..|xs| - 1], xs[|xs| - 1];
            var m := DirectMean(alpha, f);
            && DirectMean(alpha, xs) == NewMean(m, x, alpha)
            && DirectVariance(alpha, xs) == NewVariance(DirectVariance(alpha, f), m, x, alpha)
  {
    var f, x, n := xs[..|xs| - 1], xs[|xs| - 1], |xs| - 1;
    var m, v := DirectMean(alpha, f), DirectVariance(alpha, f);
    var m' := NewMean(m, x, alpha);
    MeanIdentity(m, x, alpha);
    VarianceIdentity(v, m, x, alpha);
    hide Weight, Times, Square, Moved, NewMean, NewVariance;
    LastWeight(alpha, n);
    SumsDecay(alpha, n, xs, f, m', n);
    assert DirectMean(alpha, xs) == m';
    SquaresMove(alpha, n, f, m, m', n);
    WeightsSumToOne(alpha, n);
    MovedFromMean(v, m, m');
    assert WeightedSquares(alpha, n, f, m', n) == v + Square(m - m');
  }

  /**
   * With a constant speed and learning on, the incremental state is the exponentially weighted
   * mean and variance of the whole sample history, defined directly from explicit weights.
   */
  lemma {:induction false} IncrementalIsDirect(alpha: real, xs: seq<real>)
    requires xs != []
    ensures Incremental(alpha, xs).n == |xs|
    ensures Incremental(alpha, xs).mean == DirectMean(alpha, xs)
    ensures Incremental(alpha, xs).variance == DirectVariance(alpha, xs)
    decreases |xs|
  {
    hide DirectMean, DirectVariance, NewMean, NewVariance;
    if |xs| == 1 {
      FirstSample(alpha, xs);
    } else {
      IncrementalIsDirect(alpha, xs[..|xs| - 1]);
      DirectStep(alpha, xs);
    }
  }

  lemma LastWeight(alpha: real, n: nat)
    requires n >= 1
    ensures Weight(alpha, n + 1, n) == alpha
  {
    assert Pow(1.0 - alpha, 0) == 1.0;
  }

  lemma FirstSample(alpha: real, xs: seq<real>)
    requires |xs| == 1
    ensures Incremental(alpha, xs) == Ewma(xs[0], 0.0, 1)
    ensures DirectMean(alpha, xs) == xs[0] && DirectVariance(alpha, xs) == 0.0
  {
    assert Incremental(alpha, xs[..0]) == FRESH;
    assert Weight(alpha, 1, 0) == 1.0;
    assert WeightedSum(alpha, 1, xs, 0) == 0.0;
    assert WeightedSquares(alpha, 1, xs, xs[0], 0) == 0.0;
  }

  // ------------------------------------------------------------ constant input

  predicate Warm(p: Params, e: Ewma) {
    e.n >= 1 && e.n >= p.warmup && e.variance >= 0.0
  }

  lemma OffMoves(m: real, x: real, a: real)
    ensures x - NewMean(m, x, a) == Times(1.0 - a, x - m)
  {}

  lemma NewVarianceBound(v: real, m: real, x: real, alpha: real)
    requires v >= 0.0 && 0.0 < alpha < 1.0
    ensures NewVariance(v, m, x, alpha) >= Times(1.0 - alpha, v) >= 0.0
  {
    var d, q := x - m, 1.0 - alpha;
    assert d * d >= 0.0;
    assert alpha * d * d == alpha * (d * d) >= 0.0;
    MulMono(q, v, v + alpha * d * d);
  }

  lemma MulMono(k: real, a: real, b: real)
    requires k >= 0.0 && a <= b
    ensures k * a <= k * b
  {}

  lemma MulLess(k: real, a: real, b: real)
    requires k > 0.0
    ensures a < b <==> k * a < k * b
  {}

  /** How a sample shrinks the distance to a constant input. */
  lemma SampleMoves(p: Params, e: Ewma, x: real)
    requires Sane(p) && Warm(p, e)
    ensures var u := Sample(p, e, x, false);
            && Warm(p, u)
            && (Exceeds(p, e, x) ==> Off(u, x) == Times(1.0 - p.alpha * 0.1, Off(e, x)) && u.variance == e.variance)
            && (!Exceeds(p, e, x) ==> Off(u, x) == Times(1.0 - p.alpha, Off(e, x)))
            && (!Exceeds(p, e, x) ==> u.variance == NewVariance(e.variance, e.mean, x, p.alpha) >= Times(1.0 - p.alpha, e.variance))
  {
    OffMoves(e.mean, x, p.alpha * 0.1);
    OffMoves(e.mean, x, p.alpha);
    NewVarianceBound(e.variance, e.mean, x, p.alpha);
    hide NewMean, NewVariance, Times, Square;
  }

  lemma LargerShrinks(v: real, v': real, f: real, q: real)
    requires v >= 0.0 && f >= 0.0 && 0.0 < q < 1.0 && v' >= Times(q, v)
    ensures Larger(v', f) >= Times(q, Larger(v, f)) && (Larger(v, f) > 0.0 ==> Larger(v', f) > 0.0)
  {
    ShrinkBy(q, v);
    ShrinkBy(q, f);
    TimesPositive(q, v);
    hide Times;
  }

  lemma TimesPositive(q: real, v: real)
    requires q > 0.0
    ensures v > 0.0 <==> Times(q, v) > 0.0
  {
    MulLess(q, 0.0, v);
  }

  lemma SquareNonNegative(a: real)
    ensures Square(a) >= 0.0 && (Square(a) == 0.0 <==> a == 0.0)
  {
    var b := if a < 0.0 then -a else a;
    assert Square(a) == b * b;
    PositiveProduct(b, b);
  }

  lemma PositiveProduct(a: real, b: real)
    requires a >= 0.0 && b >= 0.0
    ensures a * b >= 0.0 && (a * b == 0.0 <==> a == 0.0 || b == 0.0)
  {}

  lemma ShrinkBy(q: real, c: real)
    requires 0.0 < q < 1.0 && c >= 0.0
    ensures Times(q, c) <= c
  {
    MulMono(c, q, 1.0);
  }

  /** The scale a sample leaves behind, against the one it was judged by. */
  lemma ScaleMoves(p: Params, e: Ewma, x: real)
    requires Sane(p) && Warm(p, e)
    ensures var u := Sample(p, e, x, false);
            && (Exceeds(p, e, x) ==> Scale(p, u) == Scale(p, e))
            && (!Exceeds(p, e, x) ==> Scale(p, u) >= Times(1.0 - p.alpha, Scale(p, e)))
            && (Scale(p, e) > 0.0 ==> Scale(p, u) > 0.0) && Scale(p, e) >= 0.0
  {
    hide Times, Square, Sample;
    SampleMoves(p, e, x);
    SquareNonNegative(p.minStd);
    if !Exceeds(p, e, x) {
      LargerShrinks(e.variance, Sample(p, e, x, false).variance, Square(p.minStd), 1.0 - p.alpha);
    }
  }

  lemma ZAlgebra(d: real, k: real, c: real, c': real)
    requires 0.0 <= k <= 1.0 && c >= 0.0 && c' >= Times(k, c)
    ensures Times(Square(Times(k, d)), c) <= Times(Square(d), c')
  {
    var s := d * d;
    assert (k * d) * (k * d) == (k * k) * s;
    MulMono(k, k, 1.0);
    assert k * k <= k;
    var t := s * c;
    MulMono(c, 0.0, s);
    assert ((k * k) * s) * c == (k * k) * t;
    MulMono(t, k * k, k);
    assert k * t == s * (k * c);
    MulMono(s, k * c, c');
  }

  /** Distance squared over scale does not increase, multiplied out. */
  lemma ZCross(p: Params, e: Ewma, x: real)
    requires Sane(p) && Warm(p, e)
    ensures var u := Sample(p, e, x, false);
            Times(Square(Off(u, x)), Scale(p, e)) <= Times(Square(Off(e, x)), Scale(p, u))
  {
    hide Times, Square, Sample, Scale, Off, Exceeds;
    SampleMoves(p, e, x);
    ScaleMoves(p, e, x);
    var u := Sample(p, e, x, false);
    var k := if Exceeds(p, e, x) then 1.0 - p.alpha * 0.1 else 1.0 - p.alpha;
    ShrinkBy(1.0 - p.alpha * 0.1, Scale(p, e));
    ZAlgebra(Off(e, x), k, Scale(p, e), Scale(p, u));
  }

  /** The squared z-score of a warm metric, zero without a scale, as the code has it. */
  function ZSquared(p: Params, e: Ewma, x: real): real {
    if Scale(p, e) == 0.0 then 0.0 else Square(Off(e, x)) / Scale(p, e)
  }

  /** The scale is the larger of the variance and the squared floor. */
  lemma ScaleIs(p: Params, e: Ewma)
    ensures Scale(p, e) >= e.variance && Scale(p, e) >= p.minStd * p.minStd
    ensures Scale(p, e) == e.variance || Scale(p, e) == p.minStd * p.minStd
  {}

  /** The test for an anomalous sample is this z-score against its limit. */
  lemma ExceedsIsZ(p: Params, e: Ewma, x: real)
    requires Sane(p) && e.variance >= 0.0
    ensures Exceeds(p, e, x) <==> ZSquared(p, e, x) > Square(p.z)
  {
    SquareNonNegative(p.minStd);
    SquareNonNegative(p.z);
    var (s, c, z) := (Square(Off(e, x)), Scale(p, e), Square(p.z));
    if c > 0.0 {
      Quotient(s, c);
      MulLess(c, z, s / c);
      TimesSwap(z, c);
    }
    hide Square, Times;
  }

  lemma TimesSwap(a: real, b: real)
    ensures Times(a, b) == b * a
  {}

  lemma Quotient(s: real, c: real)
    requires c > 0.0
    ensures c * (s / c) == s
  {}

  lemma Crossed(s: real, c: real, s': real, c': real)
    requires c > 0.0 && c' > 0.0 && Times(s', c) <= Times(s, c')
    ensures s' / c' <= s / c
  {
    var (q, r) := (s / c, s' / c');
    Quotient(s, c);
    Quotient(s', c');
    assert Times(s', c) == (c * c') * r && Times(s, c') == (c * c') * q by {
      Regroup(c, c', r);
      Regroup(c', c, q);
    }
    PositiveProduct(c, c');
    MulLess(c * c', q, r);
  }

  lemma Regroup(a: real, b: real, r: real)
    ensures Times(b * r, a) == (a * b) * r && (a * b) * r == (b * a) * r
  {
    assert (b * r) * a == (a * b) * r;
  }

  /**
   * From one sample of a constant input to the next the z-score does not increase, hot or not,
   * if and only if it is not the case that there was no scale and a distance.  In that corner it
   * rises from zero to the square root of (1 - alpha) / alpha, whatever the limit.
   */
  lemma ZNeverIncreases(p: Params, e: Ewma, x: real)
    requires Sane(p) && Warm(p, e)
    ensures var u := Sample(p, e, x, false);
            && (ZSquared(p, u, x) <= ZSquared(p, e, x) <==> !(Scale(p, e) == 0.0 && Off(e, x) != 0.0))
            && (Scale(p, e) == 0.0 && Off(e, x) != 0.0 ==> ZSquared(p, u, x) == (1.0 - p.alpha) / p.alpha)
  {
    var u := Sample(p, e, x, false);
    ScaleMoves(p, e, x);
    if Scale(p, e) > 0.0 {
      ZCross(p, e, x);
      hide Square, Times, Sample, Scale, Off;
      Crossed(Square(Off(e, x)), Scale(p, e), Square(Off(u, x)), Scale(p, u));
    } else if Off(e, x) == 0.0 {
      StillThere(p, e, x);
      hide Sample, Scale, Off;
    } else {
      FirstScale(p, e, x);
      hide Sample, Off, Square;
      QuotientPositive(1.0 - p.alpha, p.alpha);
    }
  }

  lemma StillThere(p: Params, e: Ewma, x: real)
    requires Sane(p) && Warm(p, e) && Off(e, x) == 0.0
    ensures Square(Off(Sample(p, e, x, false), x)) == 0.0
  {
    SampleMoves(p, e, x);
    TimesZero(1.0 - p.alpha * 0.1);
    TimesZero(1.0 - p.alpha);
    hide Sample, Exceeds, Times;
    SquareNonNegative(Off(Sample(p, e, x, false), x));
  }

  lemma QuotientPositive(a: real, b: real)
    requires a > 0.0 && b > 0.0
    ensures a / b > 0.0
  {
    Quotient(a, b);
    MulLess(b, 0.0, a / b);
  }

  /** With no scale, a distance teaches a first variance of alpha (1 - alpha) times its square. */
  lemma FirstScale(p: Params, e: Ewma, x: real)
    requires Sane(p) && Warm(p, e) && Scale(p, e) == 0.0 && Off(e, x) != 0.0
    ensures var u := Sample(p, e, x, false);
            Scale(p, u) > 0.0 && Square(Off(u, x)) / Scale(p, u) == (1.0 - p.alpha) / p.alpha
  {
    var u, q, d := Sample(p, e, x, false), 1.0 - p.alpha, Off(e, x);
    SampleMoves(p, e, x);
    SquareNonNegative(p.minStd);
    assert e.variance == 0.0 && Square(p.minStd) == 0.0;
    FirstVariance(e.mean, x, p.alpha);
    hide Sample, NewVariance;
    FirstRatio(q, p.alpha, d);
    hide Times, Square;
  }

  lemma FirstRatio(q: real, alpha: real, d: real)
    requires q > 0.0 && alpha > 0.0 && d != 0.0
    ensures var v := Times(q, Times(alpha, Square(d)));
            v > 0.0 && Square(Times(q, d)) / v == q / alpha
  {
    var s := Square(d);
    SquareNonNegative(d);
    PositiveProduct(alpha, s);
    PositiveProduct(q, alpha * s);
    var (v, t, r) := (q * (alpha * s), (q * d) * (q * d), q / alpha);
    Quotient(q, alpha);
    assert t == q * (q * s);
    assert v * r == t by {
      assert v * r == (q * s) * (alpha * r);
    }
    UniqueQuotient(t, v, r);
  }

  lemma UniqueQuotient(t: real, v: real, r: real)
    requires v > 0.0 && v * r == t
    ensures t / v == r
  {
    Quotient(t, v);
    MulLess(v, t / v, r);
    MulLess(v, r, t / v);
  }

  /**
   * After a sample that was not anomalous, the same input is anomalous next time exactly in the
   * corner where no scale exists yet (no variance and no `min_std`) and alpha is small.
   */
  lemma ColdStays(p: Params, e: Ewma, x: real)
    requires Sane(p) && Warm(p, e) && !Exceeds(p, e, x)
    ensures Exceeds(p, Sample(p, e, x, false), x) <==>
              Scale(p, e) == 0.0 && Off(e, x) != 0.0 && 1.0 - p.alpha > Times(Square(p.z), p.alpha)
  {
    hide Times, Square, Sample, Off, NewVariance, Larger;
    SampleMoves(p, e, x);
    ScaleMoves(p, e, x);
    var u := Sample(p, e, x, false);
    if Scale(p, e) > 0.0 {
      ZCross(p, e, x);
      StaysBelow(Square(Off(u, x)), Square(Off(e, x)), Scale(p, e), Scale(p, u), Square(p.z));
    } else {
      CornerCase(p, e, x);
    }
  }

  lemma StaysBelow(s': real, s: real, c: real, c': real, zz: real)
    requires c > 0.0 && c' > 0.0 && s <= Times(zz, c) && Times(s', c) <= Times(s, c')
    ensures s' <= Times(zz, c')
  {
    MulMono(c', s, zz * c);
    assert c' * (zz * c) == c * (zz * c');
    MulLess(c, zz * c', s');
  }

  /** No variance and no `min_std`: the first learned variance decides. */
  lemma CornerCase(p: Params, e: Ewma, x: real)
    requires Sane(p) && Warm(p, e) && !Exceeds(p, e, x) && Scale(p, e) == 0.0
    ensures Exceeds(p, Sample(p, e, x, false), x) <==> Off(e, x) != 0.0 && 1.0 - p.alpha > Times(Square(p.z), p.alpha)
  {
    var u, q, d := Sample(p, e, x, false), 1.0 - p.alpha, Off(e, x);
    SampleMoves(p, e, x);
    SquareNonNegative(p.minStd);
    assert e.variance == 0.0 && Square(p.minStd) == 0.0;
    FirstVariance(e.mean, x, p.alpha);
    hide Times, Square, Sample, NewVariance;
    assert u.variance == Times(q, Times(p.alpha, Square(d)));
    Corner(q, p.alpha, d, Square(p.z));
  }

  lemma FirstVariance(m: real, x: real, alpha: real)
    ensures NewVariance(0.0, m, x, alpha) == Times(1.0 - alpha, Times(alpha, Square(x - m)))
  {
    assert alpha * (x - m) * (x - m) == alpha * ((x - m) * (x - m));
  }

  lemma Corner(q: real, alpha: real, d: real, zz: real)
    requires 0.0 < q && 0.0 < alpha
    ensures var v := Times(q, Times(alpha, Square(d)));
            && v >= 0.0
            && (v > 0.0 && Square(Times(q, d)) > Times(zz, v) <==> d != 0.0 && q > Times(zz, alpha))
  {
    var s := d * d;
    SquareNonNegative(d);
    var t := q * s;
    assert (q * d) * (q * d) == q * t && zz * (q * (alpha * s)) == t * (zz * alpha);
    MulMono(q, 0.0, s);
    MulMono(alpha, 0.0, t);
    assert q * (alpha * s) == alpha * t;
    if d != 0.0 {
      MulLess(q, 0.0, s);
      MulLess(alpha, 0.0, t);
      MulLess(t, zz * alpha, q);
    }
  }

  // ------------------------------------------------------------ runs of a constant input

  /** The state after `k` samples of the constant `x`. */
  function After(p: Params, e: Ewma, x: real, k: nat): Ewma {
    if k == 0 then e else Sample(p, After(p, e, x, k - 1), x, false)
  }

  predicate HotAt(p: Params, e: Ewma, x: real, k: nat) {
    Exceeds(p, After(p, e, x, k), x)
  }

  lemma {:induction false} AfterWarm(p: Params, e: Ewma, x: real, k: nat)
    requires Sane(p) && Warm(p, e) && Scale(p, e) > 0.0
    ensures Warm(p, After(p, e, x, k)) && Scale(p, After(p, e, x, k)) > 0.0
    decreases k
  {
    hide Sample, Scale, Warm;
    if k > 0 {
      AfterWarm(p, e, x, k - 1);
      SampleMoves(p, After(p, e, x, k - 1), x);
      ScaleMoves(p, After(p, e, x, k - 1), x);
    }
  }

  /** Anomalous samples form a prefix: once below the limit, always below it. */
  lemma {:induction false} HotIsPrefix(p: Params, e: Ewma, x: real, i: nat, j: nat)
    requires Sane(p) && Warm(p, e) && Scale(p, e) > 0.0 && i <= j && !HotAt(p, e, x, i)
    ensures !HotAt(p, e, x, j)
    decreases j
  {
    hide Sample, Scale, Warm, Exceeds, Times, Square;
    if i < j {
      HotIsPrefix(p, e, x, i, j - 1);
      AfterWarm(p, e, x, j - 1);
      ColdStays(p, After(p, e, x, j - 1), x);
    }
  }

  lemma TimesAssoc(a: real, b: real, c: real)
    ensures Times(a, Times(b, c)) == Times(Times(a, b), c)
  {}

  lemma TimesOne(a: real)
    ensures Times(1.0, a) == a
  {}

  /** The pace at which a hot metric approaches its input. */
  function Pace(p: Params): real { 1.0 - p.alpha * 0.1 }

  /** While every sample is hot the distance shrinks geometrically and the scale is frozen. */
  lemma {:induction false} HotDecay(p: Params, e: Ewma, x: real, k: nat)
    requires Sane(p) && Warm(p, e) && Scale(p, e) > 0.0 && forall i :: 0 <= i < k ==> HotAt(p, e, x, i)
    ensures Off(After(p, e, x, k), x) == Times(Pow(Pace(p), k), Off(e, x))
    ensures Scale(p, After(p, e, x, k)) == Scale(p, e)
    decreases k
  {
    hide Sample, Scale, Warm, Exceeds, Off, Times;
    if k == 0 {
      TimesOne(Off(e, x));
    } else {
      HotDecay(p, e, x, k - 1);
      AfterWarm(p, e, x, k - 1);
      var a := After(p, e, x, k - 1);
      assert HotAt(p, e, x, k - 1);
      SampleMoves(p, a, x);
      ScaleMoves(p, a, x);
      TimesAssoc(Pace(p), Pow(Pace(p), k - 1), Off(e, x));
    }
  }

  /** What is left of the squared distance `d` after `k` slow steps. */
  function Left(p: Params, d: real, k: nat): real { Square(Times(Pow(Pace(p), k), d)) }

  lemma SquareShrinks(k: real, d: real)
    requires 0.0 <= k <= 1.0
    ensures Square(Times(k, d)) <= Times(k, Square(d)) <= Square(d)
  {
    var s := d * d;
    assert (k * d) * (k * d) == (k * k) * s;
    SquareNonNegative(d);
    assert s == Square(d);
    MulMono(k, k, 1.0);
    assert k * k <= k;
    MulMono(s, k * k, k);
    MulMono(s, k, 1.0);
  }

  lemma {:induction false} LeftShrinks(p: Params, d: real, i: nat, j: nat)
    requires Sane(p) && i <= j
    ensures Left(p, d, j) <= Left(p, d, i)
    decreases j
  {
    hide Times, Square;
    if i < j {
      LeftShrinks(p, d, i, j - 1);
      TimesAssoc(Pace(p), Pow(Pace(p), j - 1), d);
      SquareShrinks(Pace(p), Times(Pow(Pace(p), j - 1), d));
    }
  }

  /**
   * A level shift of size `d` under constant input: sample `k` is anomalous exactly while
   * (1 - alpha/10)^k * |d| still exceeds z * max(std, min_std) of the start, because the
   * variance is frozen while hot.  So the number of anomalous samples is the least such `k`.
   */
  lemma {:induction false} HotExactly(p: Params, e: Ewma, x: real, k: nat)
    requires Sane(p) && Warm(p, e) && Scale(p, e) > 0.0
    ensures HotAt(p, e, x, k) <==> Left(p, Off(e, x), k) > Times(Square(p.z), Scale(p, e))
    decreases k
  {
    hide Scale, Warm, Left, Sample, After, Times, Square, Off;
    var d := Off(e, x);
    forall i | 0 <= i < k ensures HotAt(p, e, x, i) <==> Left(p, d, i) > Times(Square(p.z), Scale(p, e)) {
      HotExactly(p, e, x, i);
    }
    if forall i :: 0 <= i < k ==> HotAt(p, e, x, i) {
      HotDecay(p, e, x, k);
      HotWhenLeft(p, e, x, k);
    } else {
      var i :| 0 <= i < k && !HotAt(p, e, x, i);
      HotIsPrefix(p, e, x, i, k);
      LeftShrinks(p, d, i, k);
    }
  }

  lemma HotWhenLeft(p: Params, e: Ewma, x: real, k: nat)
    requires Off(After(p, e, x, k), x) == Times(Pow(Pace(p), k), Off(e, x))
    requires Scale(p, After(p, e, x, k)) == Scale(p, e) > 0.0
    ensures HotAt(p, e, x, k) <==> Left(p, Off(e, x), k) > Times(Square(p.z), Scale(p, e))
  {
    hide Times, Square, Scale, After, Off;
  }

  // ------------------------------------------------------------ every level shift is re-learned

  lemma {:induction false} Bernoulli(b: real, k: nat)
    requires 0.0 < b < 1.0
    ensures 0.0 < Pow(1.0 - b, k) <= 1.0 && Times(Pow(1.0 - b, k), 1.0 + Times(k as real, b)) <= 1.0
    decreases k
  {
    if k > 0 {
      Bernoulli(b, k - 1);
      BernoulliStep(b, Pow(1.0 - b, k - 1), 1.0 + Times((k - 1) as real, b));
      OneMore((k - 1) as real, b);
      MulMono(b, 0.0, (k - 1) as real);
      hide Times;
      assert Pow(1.0 - b, k) == Times(1.0 - b, Pow(1.0 - b, k - 1));
    }
  }

  lemma OneMore(k: real, b: real)
    ensures Times(k + 1.0, b) == Times(k, b) + b
  {}

  lemma BernoulliStep(b: real, r: real, t: real)
    requires 0.0 < b < 1.0 && 0.0 < r <= 1.0 && t >= 1.0 && Times(r, t) <= 1.0
    ensures 0.0 < Times(1.0 - b, r) <= 1.0 && Times(Times(1.0 - b, r), t + b) <= 1.0
  {
    var q := 1.0 - b;
    assert q * (t + b) == t + b - b * t - b * b;
    MulMono(b, 1.0, t);
    SquareNonNegative(b);
    assert (q * r) * (t + b) == r * (q * (t + b));
    MulMono(r, q * (t + b), t);
    MulLess(q, 0.0, r);
    MulMono(r, q, 1.0);
  }

  /** However large the shift, some sample stops being anomalous, and all later ones too. */
  lemma Relearned(p: Params, e: Ewma, x: real) returns (k: nat)
    requires Sane(p) && Warm(p, e) && Scale(p, e) > 0.0 && p.z > 0.0
    ensures forall j: nat :: j >= k ==> !HotAt(p, e, x, j)
  {
    var b, d, c := p.alpha * 0.1, Off(e, x), Times(Square(p.z), Scale(p, e));
    SquareNonNegative(p.z);
    MulLess(Square(p.z), 0.0, Scale(p, e));
    SquareNonNegative(d);
    MulLess(c, 0.0, b);
    hide Scale, Warm, Sample, After, Times, Square, Off;
    k := Ceiling(Square(d), Times(c, b));
    Bernoulli(b, k);
    var r := Pow(1.0 - b, k);
    SmallEnough(r, k as real, b, Square(d), c);
    SquareShrinks(r, d);
    HotExactly(p, e, x, k);
    forall j: nat | j >= k ensures !HotAt(p, e, x, j) {
      HotIsPrefix(p, e, x, k, j);
    }
  }

  /** A natural number `k` with `k * m >= s`. */
  lemma Ceiling(s: real, m: real) returns (k: nat)
    requires m > 0.0 && s >= 0.0
    ensures Times(k as real, m) >= s
  {
    var q := s / m;
    assert q * m == s;
    MulLess(m, q, 0.0);
    k := q.Floor + 1;
    MulMono(m, q, k as real);
  }

  lemma SmallEnough(r: real, k: real, b: real, s: real, c: real)
    requires 0.0 < r && Times(r, 1.0 + Times(k, b)) <= 1.0 && Times(k, Times(c, b)) >= s && c > 0.0
    ensures Times(r, s) <= c
  {
    assert r * (1.0 + k * b) == r + r * (k * b);
    MulMono(r, s, k * (c * b));
    assert r * (k * (c * b)) == c * (r * (k * b));
    MulMono(c, r * (k * b), 1.0);
  }

  // ------------------------------------------------------------ whole sequences of samples

  function WatchAll(p: Params, obs: seq<Obs>): Watch {
    if obs == [] then UNSEEN else Observe(p, WatchAll(p, obs[..|obs| - 1]), obs[|obs| - 1])
  }

  /**
   * Sample `i` is anomalous: the operating point does not move, `warmup` samples came before it,
   * and its z-score against the estimate they left is over the limit.
   */
  predicate Anomalous(p: Params, obs: seq<Obs>, i: nat)
    requires i < |obs|
  {
    !obs[i].gated && i >= p.warmup && ZSquared(p, WatchAll(p, obs[..i]).e, obs[i].x) > Square(p.z)
  }

  lemma UpdateSane(e: Ewma, x: real, alpha: real, learn: bool)
    requires e.variance >= 0.0 && 0.0 < alpha < 1.0
    ensures Update(e, x, alpha, learn).n == e.n + 1 && Update(e, x, alpha, learn).variance >= 0.0
  {
    NewVarianceBound(e.variance, e.mean, x, alpha);
    hide NewVariance, NewMean, Times;
  }

  lemma {:induction false} WatchSane(p: Params, obs: seq<Obs>)
    requires Sane(p)
    ensures WatchAll(p, obs).e.n == |obs| && WatchAll(p, obs).e.variance >= 0.0
    decreases |obs|
  {
    if obs != [] {
      WatchSane(p, obs[..|obs| - 1]);
      var e, o := WatchAll(p, obs[..|obs| - 1]).e, obs[|obs| - 1];
      UpdateSane(e, o.x, p.alpha, true);
      UpdateSane(e, o.x, p.alpha * 0.1, false);
      hide Exceeds, Update;
    }
  }

  /**
   * Over every sequence of samples: an anomalous one moves the mean at a tenth of the speed,
   * freezes the variance and lengthens the streak; any other, gated and early ones included, is
   * learned in full and ends the streak.
   */
  lemma SampleEffect(p: Params, obs: seq<Obs>, i: nat)
    requires Sane(p) && i < |obs|
    ensures var (w, u, o) := (WatchAll(p, obs[..i]), WatchAll(p, obs[..i + 1]), obs[i]);
            if Anomalous(p, obs, i) then
              && u.e == Update(w.e, o.x, p.alpha * 0.1, false) && u.streak == w.streak + 1
              && u.since == (if w.since.None? then Some(o.now) else w.since)
            else u == Watch(Update(w.e, o.x, p.alpha, true), 0, None)
  {
    assert obs[..i + 1][..i] == obs[..i];
    WatchSane(p, obs[..i]);
    ExceedsIsZ(p, WatchAll(p, obs[..i]).e, obs[i].x);
    hide Exceeds, ZSquared, Square, Update;
  }

  /** Samples `k` to the last are one unbroken run of anomalous ones. */
  predicate Run(p: Params, obs: seq<Obs>, k: nat)
    requires k <= |obs|
  {
    (forall i :: k <= i < |obs| ==> Anomalous(p, obs, i)) && (k > 0 ==> !Anomalous(p, obs, k - 1))
  }

  lemma AnomalousPrefix(p: Params, obs: seq<Obs>, n: nat, i: nat)
    requires i < n <= |obs|
    ensures Anomalous(p, obs[..n], i) <==> Anomalous(p, obs, i)
  {
    assert obs[..n][..i] == obs[..i];
  }

  /** The streak is that run's length and `since` the time of its first sample. */
  lemma {:induction false} StreakIsRun(p: Params, obs: seq<Obs>)
    requires Sane(p)
    ensures var w := WatchAll(p, obs);
            && w.streak <= |obs| && Run(p, obs, |obs| - w.streak)
            && w.since == if w.streak == 0 then None else Some(obs[|obs| - w.streak].now)
    decreases |obs|
  {
    if obs != [] {
      hide Anomalous;
      var n := |obs| - 1;
      var before := obs[..n];
      StreakIsRun(p, before);
      assert obs[..n + 1] == obs;
      SampleEffect(p, obs, n);
      forall i | 0 <= i < n ensures Anomalous(p, before, i) <==> Anomalous(p, obs, i) {
        AnomalousPrefix(p, obs, n, i);
      }
      hide WatchAll;
    }
  }

  lemma RunUnique(p: Params, obs: seq<Obs>, j: nat, k: nat)
    requires j <= |obs| && k <= |obs| && Run(p, obs, j) && Run(p, obs, k)
    ensures j == k
  {
    hide Anomalous;
  }

  /**
   * The rule is true after a sample if and only if that sample ends a run of at least `sustain`
   * anomalous samples whose first is at least `sustain_s` back.
   */
  lemma RuleTrueIff(p: Params, obs: seq<Obs>)
    requires Sane(p) && obs != [] && p.sustain >= 1
    ensures Reports(p, WatchAll(p, obs), obs[|obs| - 1].now) <==>
              exists k: nat :: k < |obs| && Run(p, obs, k) && |obs| - k >= p.sustain && obs[|obs| - 1].now - obs[k].now >= p.sustainS
  {
    StreakIsRun(p, obs);
    hide Run, WatchAll;
    var w := WatchAll(p, obs);
    forall k: nat | k < |obs| && Run(p, obs, k) ensures k == |obs| - w.streak {
      RunUnique(p, obs, k, |obs| - w.streak);
    }
  }

  /** Gated throughout, a metric is learned like any other and its rule is never true. */
  lemma {:induction false} GatedThroughout(p: Params, obs: seq<Obs>)
    requires Sane(p) && forall i :: 0 <= i < |obs| ==> obs[i].gated
    ensures WatchAll(p, obs).e == Incremental(p.alpha, seq(|obs|, i requires 0 <= i < |obs| => obs[i].x))
    ensures p.sustain >= 1 ==> forall now :: !Reports(p, WatchAll(p, obs), now)
    decreases |obs|
  {
    if obs != [] {
      var n := |obs| - 1;
      GatedThroughout(p, obs[..n]);
      assert obs[..n + 1] == obs;
      SampleEffect(p, obs, n);
      var xs := seq(|obs|, i requires 0 <= i < |obs| => obs[i].x);
      assert xs[..n] == seq(n, i requires 0 <= i < n => obs[..n][i].x);
      hide WatchAll, Update;
    }
  }
}
