/** What the clock anchor's lines are: best fits, exact on exact data, indifferent to where ticks start. */
module ClockOptimality {
  import opened ClockAnchoring

  // The spread of the ticks

  /** The sum of squared distances from a point at distance `d` from t0, from the sums at t0. */
  function Moved(n: int, sx: int, sxx: int, d: int): int {
    sxx - 2 * d * sx + n * Square(d)
  }

  lemma MovedStep(n: int, sx: int, sxx: int, x: int, d: int)
    ensures Moved(n + 1, sx + x, sxx + Square(x), d) == Moved(n, sx, sxx, d) + Square(x - d)
  {
  }

  lemma {:induction false} SumXXShift(s: seq<Sample>, t0: int, t: int)
    ensures SumXX(s, t) == Moved(|s|, SumX(s, t0), SumXX(s, t0), t - t0)
  {
    if s != [] {
      var before, x := s[..|s| - 1], s[|s| - 1].ticks - t0;
      SumXXShift(before, t0, t);
      MovedStep(|before|, SumX(before, t0), SumXX(before, t0), x, t - t0);
    }
  }

  predicate SameTicks(s: seq<Sample>, t: int) {
    forall i :: 0 <= i < |s| ==> s[i].ticks == t
  }

  lemma {:induction false} SumXXZero(s: seq<Sample>, t: int)
    ensures SumXX(s, t) == 0 <==> SameTicks(s, t)
  {
    if s != [] {
      var before, last := s[..|s| - 1], s[|s| - 1];
      SumXXZero(before, t);
      SquareZero(last.ticks - t);
      assert SameTicks(s, t) <==> SameTicks(before, t) && last.ticks == t;
    }
  }

  lemma SquareZero(x: int)
    ensures Square(x) == 0 <==> x == 0
  {
  }

  /** One more sample adds its squared distances from the others. */
  lemma DenominatorStep(before: seq<Sample>, last: Sample, t0: int)
    ensures Denominator(before + [last], t0) == Denominator(before, t0) + SumXX(before, last.ticks)
  {
    var x, n, sx, sxx := last.ticks - t0, |before|, SumX(before, t0), SumXX(before, t0);
    assert (before + [last])[..n] == before;
    SumXXShift(before, t0, last.ticks);
    DenominatorAlgebra(n, sx, sxx, x, SumXX(before, last.ticks));
  }

  lemma DenominatorAlgebra(n: int, sx: int, sxx: int, x: int, distances: int)
    requires distances == Moved(n, sx, sxx, x)
    ensures (n + 1) * (sxx + Square(x)) - (sx + x) * (sx + x) == n * sxx - sx * sx + distances
  {
  }

  /** The denominator of the warm-up fit is never negative, and zero exactly when no tick differs. */
  lemma {:induction false} DenominatorSign(s: seq<Sample>, t0: int)
    requires s != []
    ensures Denominator(s, t0) >= 0
    ensures Denominator(s, t0) == 0 <==> SameTicks(s, s[0].ticks)
  {
    var before, last := s[..|s| - 1], s[|s| - 1];
    assert s == before + [last];
    DenominatorStep(before, last, t0);
    if before != [] {
      DenominatorSign(before, t0);
      SumXXZero(before, last.ticks);
      assert before[0] == s[0];
    } else {
      assert Denominator([], t0) == 0;
    }
  }

  // Squared errors of a line

  function SquareR(x: real): real {
    x * x
  }

  function SumYY(s: seq<Sample>, h0: int): int {
    if s == [] then 0 else SumYY(s[..|s| - 1], h0) + Square(s[|s| - 1].host - h0)
  }

  /** The squared error of the line `intercept + slope * x` over all samples. */
  function LineError(s: seq<Sample>, t0: int, h0: int, intercept: real, slope: real): real {
    if s == [] then 0.0
    else
      var last := s[|s| - 1];
      LineError(s[..|s| - 1], t0, h0, intercept, slope) + Residual(last.ticks - t0, last.host - h0, intercept, slope)
  }

  function Residual(x: int, y: int, intercept: real, slope: real): real {
    SquareR(y as real - intercept - slope * x as real)
  }

  /** The same from the sums. */
  function Expanded(n: real, sx: real, sy: real, sxx: real, sxy: real, syy: real, a: real, b: real): real {
    syy - 2.0 * a * sy - 2.0 * b * sxy + n * a * a + 2.0 * a * b * sx + b * b * sxx
  }

  function ErrorAt(n: int, sx: int, sy: int, sxx: int, sxy: int, syy: int, a: real, b: real): real {
    Expanded(n as real, sx as real, sy as real, sxx as real, sxy as real, syy as real, a, b)
  }

  lemma ExpandedStep(n: real, sx: real, sy: real, sxx: real, sxy: real, syy: real, a: real, b: real, x: real, y: real)
    ensures Expanded(n + 1.0, sx + x, sy + y, sxx + x * x, sxy + x * y, syy + y * y, a, b)
         == Expanded(n, sx, sy, sxx, sxy, syy, a, b) + SquareR(y - a - b * x)
  {
  }

  lemma CastProduct(a: int, b: int)
    ensures (a * b) as real == a as real * b as real
  {
  }

  lemma IntegerStep(n: int, sx: int, sy: int, sxx: int, sxy: int, syy: int, a: real, b: real, x: int, y: int)
    ensures ErrorAt(n + 1, sx + x, sy + y, sxx + Square(x), sxy + x * y, syy + Square(y), a, b)
         == ErrorAt(n, sx, sy, sxx, sxy, syy, a, b) + Residual(x, y, a, b)
  {
    CastProduct(x, x);
    CastProduct(x, y);
    CastProduct(y, y);
    ExpandedStep(n as real, sx as real, sy as real, sxx as real, sxy as real, syy as real, a, b, x as real, y as real);
  }

  lemma {:induction false} LineErrorExpands(s: seq<Sample>, t0: int, h0: int, a: real, b: real)
    ensures LineError(s, t0, h0, a, b)
         == ErrorAt(|s|, SumX(s, t0), SumY(s, h0), SumXX(s, t0), SumXY(s, t0, h0), SumYY(s, h0), a, b)
  {
    if s != [] {
      var before, x, y := s[..|s| - 1], s[|s| - 1].ticks - t0, s[|s| - 1].host - h0;
      LineErrorExpands(before, t0, h0, a, b);
      IntegerStep(|before|, SumX(before, t0), SumY(before, h0), SumXX(before, t0), SumXY(before, t0, h0),
                  SumYY(before, h0), a, b, x, y);
    }
  }

  /** If (p, q) solves the normal equations, the error of any other line is larger by this much. */
  lemma ErrorDifference(n: real, sx: real, sy: real, sxx: real, sxy: real, syy: real, p: real, q: real,
                        a: real, b: real)
    requires n * p + q * sx == sy && p * sx + q * sxx == sxy
    ensures Expanded(n, sx, sy, sxx, sxy, syy, a, b) - Expanded(n, sx, sy, sxx, sxy, syy, p, q)
         == n * (a - p) * (a - p) + 2.0 * (a - p) * (b - q) * sx + (b - q) * (b - q) * sxx
  {
  }

  /** Completing the square. */
  lemma DifferenceSign(n: real, sx: real, sxx: real, u: real, v: real)
    requires n > 0.0 && n * sxx - sx * sx > 0.0
    ensures n * u * u + 2.0 * u * v * sx + v * v * sxx >= 0.0
    ensures n * u * u + 2.0 * u * v * sx + v * v * sxx == 0.0 <==> u == 0.0 && v == 0.0
  {
    var difference, d := n * u * u + 2.0 * u * v * sx + v * v * sxx, n * sxx - sx * sx;
    assert n * difference == SquareR(n * u + v * sx) + d * SquareR(v);
    SquareSign(n * u + v * sx);
    SquareSign(v);
    ProductSign(d, SquareR(v));
    ProductSign(n, difference);
    if difference == 0.0 {
      assert v == 0.0;
      ProductSign(n, u);
      assert n * u == 0.0;
    }
  }

  lemma SquareSign(x: real)
    ensures SquareR(x) >= 0.0 && (SquareR(x) == 0.0 <==> x == 0.0)
  {
    if x > 0.0 {
      ProductSign(x, x);
    } else if x < 0.0 {
      ProductSign(-x, -x);
      assert SquareR(x) == -x * -x;
    }
  }

  lemma ProductSign(n: real, x: real)
    requires n > 0.0
    ensures (n * x >= 0.0 <==> x >= 0.0) && (n * x == 0.0 <==> x == 0.0)
  {
    if x > 0.0 {
      assert n * x > 0.0;
    } else if x < 0.0 {
      assert n * -x > 0.0;
      assert n * x == -(n * -x);
    }
  }

  lemma NormalEquations(n: real, sx: real, sy: real, sxx: real, sxy: real, p: real, q: real)
    requires n > 0.0 && n * sxx - sx * sx > 0.0
    requires q == (n * sxy - sx * sy) / (n * sxx - sx * sx) && p == (sy - q * sx) / n
    ensures n * p + q * sx == sy && p * sx + q * sxx == sxy
  {
    var d := n * sxx - sx * sx;
    assert n * p == sy - q * sx;
    assert q * d == n * sxy - sx * sy;
    assert n * (p * sx + q * sxx) == n * sxy by {
      assert n * (p * sx + q * sxx) == (n * p) * sx + q * (n * sxx);
      assert (n * p) * sx == sy * sx - q * sx * sx;
      assert q * (n * sxx) == q * d + q * sx * sx;
    }
    ProductSign(n, p * sx + q * sxx - sxy);
  }

  // The warm-up line

  /** The normal equations of a least-squares line. */
  predicate Solves(n: int, sx: int, sy: int, sxx: int, sxy: int, p: real, q: real) {
    && n as real * p + q * sx as real == sy as real
    && p * sx as real + q * sxx as real == sxy as real
  }

  /** The line solves the normal equations of the samples. */
  predicate Normal(s: seq<Sample>, t0: int, h0: int, p: real, q: real) {
    Solves(|s|, SumX(s, t0), SumY(s, h0), SumXX(s, t0), SumXY(s, t0, h0), p, q)
  }

  lemma SolutionIsBest(n: int, sx: int, sy: int, sxx: int, sxy: int, syy: int, p: real, q: real, a: real, b: real)
    requires n > 0 && n * sxx - sx * sx > 0 && Solves(n, sx, sy, sxx, sxy, p, q)
    ensures ErrorAt(n, sx, sy, sxx, sxy, syy, p, q) <= ErrorAt(n, sx, sy, sxx, sxy, syy, a, b)
    ensures ErrorAt(n, sx, sy, sxx, sxy, syy, p, q) == ErrorAt(n, sx, sy, sxx, sxy, syy, a, b) <==> a == p && b == q
  {
    CastProduct(n, sxx);
    CastProduct(sx, sx);
    ErrorDifference(n as real, sx as real, sy as real, sxx as real, sxy as real, syy as real, p, q, a, b);
    DifferenceSign(n as real, sx as real, sxx as real, a - p, b - q);
  }

  lemma NormalLineIsBest(s: seq<Sample>, t0: int, h0: int, p: real, q: real, a: real, b: real)
    requires s != [] && Denominator(s, t0) > 0 && Normal(s, t0, h0, p, q)
    ensures LineError(s, t0, h0, p, q) <= LineError(s, t0, h0, a, b)
    ensures LineError(s, t0, h0, p, q) == LineError(s, t0, h0, a, b) <==> a == p && b == q
  {
    LineErrorExpands(s, t0, h0, p, q);
    LineErrorExpands(s, t0, h0, a, b);
    SolutionIsBest(|s|, SumX(s, t0), SumY(s, h0), SumXX(s, t0), SumXY(s, t0, h0), SumYY(s, h0), p, q, a, b);
  }

  lemma FitSolves(n: int, sx: int, sy: int, sxx: int, sxy: int, p: real, q: real)
    requires n > 0 && n * sxx - sx * sx > 0
    requires q == (n * sxy - sx * sy) as real / (n * sxx - sx * sx) as real
    requires p == (sy as real - q * sx as real) / n as real
    ensures Solves(n, sx, sy, sxx, sxy, p, q)
  {
    CastProduct(n, sxx);
    CastProduct(sx, sx);
    CastProduct(n, sxy);
    CastProduct(sx, sy);
    NormalEquations(n as real, sx as real, sy as real, sxx as real, sxy as real, p, q);
  }

  lemma WarmupLineIsNormal(s: seq<Sample>, nominal: real)
    requires s != [] && Denominator(s, s[0].ticks) > 0
    ensures Normal(s, s[0].ticks, 0, WarmupIntercept(s, nominal), WarmupSlope(s, nominal))
  {
    var t0 := s[0].ticks;
    FitSolves(|s|, SumX(s, t0), SumY(s, 0), SumXX(s, t0), SumXY(s, t0, 0), WarmupIntercept(s, nominal),
              WarmupSlope(s, nominal));
  }

  /** No line has a smaller squared error over the warm-up samples, and no other line an equal one. */
  lemma WarmupLineIsBest(s: seq<Sample>, nominal: real, intercept: real, slope: real)
    requires s != [] && !SameTicks(s, s[0].ticks)
    ensures var t0, p, q := s[0].ticks, WarmupIntercept(s, nominal), WarmupSlope(s, nominal);
      && LineError(s, t0, 0, p, q) <= LineError(s, t0, 0, intercept, slope)
      && (LineError(s, t0, 0, p, q) == LineError(s, t0, 0, intercept, slope) <==> intercept == p && slope == q)
  {
    DenominatorSign(s, s[0].ticks);
    WarmupLineIsNormal(s, nominal);
    NormalLineIsBest(s, s[0].ticks, 0, WarmupIntercept(s, nominal), WarmupSlope(s, nominal), intercept, slope);
  }

  // The rate

  /** The normal equation of a least-squares rate. */
  predicate Balanced(sxx: int, sxy: int, rate: real) {
    rate * sxx as real == sxy as real
  }

  lemma RatioBalances(sxx: int, sxy: int)
    requires sxx > 0
    ensures Balanced(sxx, sxy, sxy as real / sxx as real)
  {
  }

  lemma ScaleIsBest(s: seq<Sample>, t0: int, h0: int, best: real, rate: real)
    requires SumXX(s, t0) > 0 && Balanced(SumXX(s, t0), SumXY(s, t0, h0), best)
    ensures LineError(s, t0, h0, 0.0, best) <= LineError(s, t0, h0, 0.0, rate)
    ensures LineError(s, t0, h0, 0.0, best) == LineError(s, t0, h0, 0.0, rate) <==> rate == best
  {
    LineErrorExpands(s, t0, h0, 0.0, best);
    LineErrorExpands(s, t0, h0, 0.0, rate);
    ScaleDifference(|s| as real, SumX(s, t0) as real, SumY(s, h0) as real, SumXX(s, t0) as real,
                    SumXY(s, t0, h0) as real, SumYY(s, h0) as real, best, rate);
    SquareSign(rate - best);
    ProductSign(SumXX(s, t0) as real, SquareR(rate - best));
  }

  lemma ScaleDifference(n: real, sx: real, sy: real, sxx: real, sxy: real, syy: real, best: real, rate: real)
    requires best * sxx == sxy
    ensures Expanded(n, sx, sy, sxx, sxy, syy, 0.0, rate) - Expanded(n, sx, sy, sxx, sxy, syy, 0.0, best)
         == sxx * SquareR(rate - best)
  {
  }

  /** After the warm-up the rate has the smallest squared error of all rates through the anchor, over
      every sample ever passed, and no other rate an equal one. */
  lemma RateIsBest(history: seq<Sample>, settings: Settings, rate: real)
    requires settings.Valid() && settings.warmupSamples < |history|
    requires !SameTicks(history, history[0].ticks)
    ensures var t0, h0 := history[0].ticks, HostStart(history[..settings.warmupSamples], settings.nominal);
      var best := Rate(history, settings);
      && LineError(history, t0, h0, 0.0, best) <= LineError(history, t0, h0, 0.0, rate)
      && (LineError(history, t0, h0, 0.0, best) == LineError(history, t0, h0, 0.0, rate) <==> rate == best)
  {
    var t0, h0 := history[0].ticks, HostStart(history[..settings.warmupSamples], settings.nominal);
    SumXXZero(history, t0);
    RatioBalances(SumXX(history, t0), SumXY(history, t0, h0));
    ScaleIsBest(history, t0, h0, Rate(history, settings), rate);
  }

  /** Without any spread in the ticks the rate stays nominal and the start is the first observation. */
  lemma NoSpread(history: seq<Sample>, settings: Settings)
    requires settings.Valid() && settings.warmupSamples <= |history| && SameTicks(history, history[0].ticks)
    ensures Rate(history, settings) == settings.nominal
    ensures HostStart(history[..settings.warmupSamples], settings.nominal) == history[0].host
  {
    var warmup, t0 := history[..settings.warmupSamples], history[0].ticks;
    SumXXZero(history, t0);
    DenominatorSign(warmup, t0);
    IntegersConvert(history[0].host);
  }
}
