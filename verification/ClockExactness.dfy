/** Runs of the clock anchor: exact data comes out unchanged, and shifting all ticks changes nothing. */
module ClockExactness {
  import opened ClockAnchoring
  import opened ClockOptimality

  // Samples on a line

  /** Every sample lies on the line through (t0, h0) with this rate. */
  predicate Through(s: seq<Sample>, t0: int, h0: int, rate: real) {
    forall i :: 0 <= i < |s| ==> OnLine(s[i], t0, h0, rate)
  }

  predicate OnLine(sample: Sample, t0: int, h0: int, rate: real) {
    (sample.host - h0) as real == rate * (sample.ticks - t0) as real
  }

  lemma {:induction false} LineErrorSign(s: seq<Sample>, t0: int, h0: int, intercept: real, slope: real)
    ensures 0.0 <= LineError(s, t0, h0, intercept, slope)
  {
    if s != [] {
      var last := s[|s| - 1];
      LineErrorSign(s[..|s| - 1], t0, h0, intercept, slope);
      ResidualSign(last.ticks - t0, last.host - h0, intercept, slope);
    }
  }

  lemma ResidualSign(x: int, y: int, intercept: real, slope: real)
    ensures 0.0 <= Residual(x, y, intercept, slope)
  {
    SquareSign(y as real - intercept - slope * x as real);
  }

  /** The error from any level `h1`, for the line that starts at h0. */
  lemma {:induction false} LineErrorOnLine(s: seq<Sample>, t0: int, h0: int, h1: int, rate: real)
    requires Through(s, t0, h0, rate)
    ensures LineError(s, t0, h1, (h0 - h1) as real, rate) == 0.0
  {
    if s != [] {
      LineErrorOnLine(s[..|s| - 1], t0, h0, h1, rate);
      NoResidual(s[|s| - 1], t0, h0, h1, rate);
    }
  }

  lemma NoResidual(sample: Sample, t0: int, h0: int, h1: int, rate: real)
    requires OnLine(sample, t0, h0, rate)
    ensures Residual(sample.ticks - t0, sample.host - h1, (h0 - h1) as real, rate) == 0.0
  {
  }

  /** On a line the warm-up finds the first observation as the start, and the rate if ticks differ. */
  lemma WarmupOnLine(s: seq<Sample>, nominal: real, rate: real)
    requires s != [] && Through(s, s[0].ticks, s[0].host, rate)
    ensures HostStart(s, nominal) == s[0].host
    ensures !SameTicks(s, s[0].ticks) ==> WarmupSlope(s, nominal) == rate
  {
    var t0, h0 := s[0].ticks, s[0].host;
    if SameTicks(s, t0) {
      DenominatorSign(s, t0);
    } else {
      LineErrorOnLine(s, t0, h0, 0, rate);
      LineErrorSign(s, t0, 0, WarmupIntercept(s, nominal), WarmupSlope(s, nominal));
      WarmupLineIsBest(s, nominal, h0 as real, rate);
    }
    IntegersConvert(h0);
  }

  /** If all samples so far lie on one line, the call returns the observed time. */
  lemma ExactOnLine(history: seq<Sample>, settings: Settings, rate: real)
    requires settings.Valid() && history != []
    requires Through(history, history[0].ticks, history[0].host, rate)
    ensures Output(history, settings) == history[|history| - 1].host
  {
    if settings.warmupSamples < |history| {
      var t0, h0, last := history[0].ticks, history[0].host, history[|history| - 1];
      var warmup := history[..settings.warmupSamples];
      WarmupOnLine(warmup, settings.nominal, rate);
      if SameTicks(history, t0) {
        ScaledOnLine(last, t0, h0, rate, Rate(history, settings));
      } else {
        LineErrorOnLine(history, t0, h0, h0, rate);
        LineErrorSign(history, t0, h0, 0.0, Rate(history, settings));
        RateIsBest(history, settings, rate);
        ScaledOnLine(last, t0, h0, rate, rate);
      }
    }
  }

  lemma ScaledOnLine(sample: Sample, t0: int, h0: int, rate: real, used: real)
    requires OnLine(sample, t0, h0, rate) && (used == rate || sample.ticks == t0)
    ensures Scaled(sample.ticks - t0, used) == sample.host - h0
  {
    assert (sample.ticks - t0) as real * used == (sample.host - h0) as real;
    IntegersConvert(sample.host - h0);
  }

  // Shifted ticks

  function Shifted(s: seq<Sample>, c: int): (shifted: seq<Sample>)
    ensures |shifted| == |s|
  {
    seq(|s|, i requires 0 <= i < |s| => Sample(s[i].ticks + c, s[i].host))
  }

  lemma {:induction false} ShiftedSums(s: seq<Sample>, c: int, t0: int, h0: int)
    ensures SumX(Shifted(s, c), t0 + c) == SumX(s, t0) && SumY(Shifted(s, c), h0) == SumY(s, h0)
    ensures SumXX(Shifted(s, c), t0 + c) == SumXX(s, t0) && SumXY(Shifted(s, c), t0 + c, h0) == SumXY(s, t0, h0)
  {
    if s != [] {
      ShiftedSums(s[..|s| - 1], c, t0, h0);
      assert Shifted(s, c)[..|s| - 1] == Shifted(s[..|s| - 1], c);
    }
  }

  lemma ShiftedWarmup(s: seq<Sample>, c: int, nominal: real)
    requires s != []
    ensures HostStart(Shifted(s, c), nominal) == HostStart(s, nominal)
    ensures WarmupSlope(Shifted(s, c), nominal) == WarmupSlope(s, nominal)
  {
    ShiftedSums(s, c, s[0].ticks, 0);
  }

  /** Adding a constant to every device tick changes no output of any run. */
  lemma ShiftInvariant(history: seq<Sample>, c: int, settings: Settings)
    requires settings.Valid() && history != []
    ensures Output(Shifted(history, c), settings) == Output(history, settings)
  {
    var w := settings.warmupSamples;
    if w < |history| {
      assert Shifted(history, c)[..w] == Shifted(history[..w], c);
      ShiftedWarmup(history[..w], c, settings.nominal);
      ShiftedSums(history, c, history[0].ticks, HostStart(history[..w], settings.nominal));
    }
  }
}
