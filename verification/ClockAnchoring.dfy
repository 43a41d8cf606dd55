/** Device ticks onto the host clock: a least-squares line through a warm-up window, then a least-squares
    rate kept up to date with every sample. Floating-point numbers are reals. */
module ClockAnchoring {
  import opened MachineInts

  datatype Sample = Sample(ticks: int, host: int)

  // Sums over samples, as the loops accumulate them: x is a tick count seen from t0, y a time from h0

  function SumX(s: seq<Sample>, t0: int): int {
    if s == [] then 0 else SumX(s[..|s| - 1], t0) + (s[|s| - 1].ticks - t0)
  }

  function SumY(s: seq<Sample>, h0: int): int {
    if s == [] then 0 else SumY(s[..|s| - 1], h0) + (s[|s| - 1].host - h0)
  }

  function Square(x: int): nat {
    x * x
  }

  function SumXX(s: seq<Sample>, t0: int): nat {
    if s == [] then 0 else SumXX(s[..|s| - 1], t0) + Square(s[|s| - 1].ticks - t0)
  }

  function SumXY(s: seq<Sample>, t0: int, h0: int): int {
    if s == [] then 0
    else SumXY(s[..|s| - 1], t0, h0) + (s[|s| - 1].ticks - t0) * (s[|s| - 1].host - h0)
  }

  // Python's conversions to int

  function Trunc(x: real): (r: int)
    ensures x >= 0.0 ==> 0.0 <= x - r as real < 1.0
    ensures x <= 0.0 ==> 0.0 <= r as real - x < 1.0
  {
    if x >= 0.0 then x.Floor else -((-x).Floor)
  }

  /** Rounds to the nearest integer, and half-way to the even one. */
  function RoundHalfEven(x: real): (r: int)
    ensures -0.5 <= r as real - x <= 0.5
    ensures r as real - x == 0.5 || r as real - x == -0.5 ==> r % 2 == 0
  {
    var below := x.Floor;
    var part := x - below as real;
    if part < 0.5 || (part == 0.5 && below % 2 == 0) then below else below + 1
  }

  lemma IntegersConvert(n: int)
    ensures Trunc(n as real) == n && RoundHalfEven(n as real) == n
  {
    assert (-(n as real)).Floor == -n by {
      assert -(n as real) == (-n) as real;
    }
  }

  /** The time that `ticks` stand for. */
  function Scaled(ticks: int, rate: real): int {
    Trunc(ticks as real * rate)
  }

  // The anchor as a function of all samples so far

  function Denominator(s: seq<Sample>, t0: int): int {
    |s| * SumXX(s, t0) - SumX(s, t0) * SumX(s, t0)
  }

  function WarmupSlope(s: seq<Sample>, nominal: real): real
    requires s != []
  {
    var t0 := s[0].ticks;
    if Denominator(s, t0) != 0 then
      (|s| * SumXY(s, t0, 0) - SumX(s, t0) * SumY(s, 0)) as real / Denominator(s, t0) as real
    else
      nominal
  }

  /** Where a line of this slope through the centre of `n` samples starts. */
  function Level(n: nat, sumX: int, sumY: int, slope: real): real
    requires 0 < n
  {
    (sumY as real - slope * sumX as real) / n as real
  }

  function WarmupIntercept(s: seq<Sample>, nominal: real): real
    requires s != []
  {
    var t0 := s[0].ticks;
    if Denominator(s, t0) != 0 then
      Level(|s|, SumX(s, t0), SumY(s, 0), WarmupSlope(s, nominal))
    else
      s[0].host as real
  }

  function HostStart(s: seq<Sample>, nominal: real): int
    requires s != []
  {
    RoundHalfEven(WarmupIntercept(s, nominal))
  }

  /** The settings of one anchor. */
  datatype Settings = Settings(nominal: real, warmupSamples: nat) {
    predicate Valid() { 2 <= warmupSamples }
  }

  datatype State = State(rate: real, buffer: seq<Sample>, anchored: bool, deviceStart: int, hostStart: int,
                         sumTicksSq: int, sumTicksNs: int, count: nat)

  function Rate(history: seq<Sample>, settings: Settings): real
    requires settings.Valid() && settings.warmupSamples <= |history|
  {
    var warmup, t0 := history[..settings.warmupSamples], history[0].ticks;
    if |history| > settings.warmupSamples && SumXX(history, t0) > 0 then
      SumXY(history, t0, HostStart(warmup, settings.nominal)) as real / SumXX(history, t0) as real
    else
      WarmupSlope(warmup, settings.nominal)
  }

  function StateOf(history: seq<Sample>, settings: Settings): State
    requires settings.Valid()
  {
    if |history| < settings.warmupSamples then
      State(settings.nominal, history, false, 0, 0, 0, 0, |history|)
    else
      var t0, h0 := history[0].ticks, HostStart(history[..settings.warmupSamples], settings.nominal);
      State(Rate(history, settings), [], true, t0, h0, SumXX(history, t0), SumXY(history, t0, h0), |history|)
  }

  /** What the last of these calls returns. */
  function Output(history: seq<Sample>, settings: Settings): int
    requires settings.Valid() && history != []
  {
    var last := history[|history| - 1];
    if |history| <= settings.warmupSamples then
      last.host
    else
      HostStart(history[..settings.warmupSamples], settings.nominal)
      + Scaled(last.ticks - history[0].ticks, Rate(history, settings))
  }

  /** After the warm-up the answer is the start and the exact product of elapsed ticks and rate, less than one
      nanosecond towards the start. */
  lemma OutputIsTruncated(history: seq<Sample>, settings: Settings)
    requires settings.Valid() && settings.warmupSamples < |history|
    ensures var exact := (history[|history| - 1].ticks - history[0].ticks) as real * Rate(history, settings);
      var start := HostStart(history[..settings.warmupSamples], settings.nominal);
      var elapsed := Output(history, settings) - start;
      && (exact >= 0.0 ==> 0.0 <= exact - elapsed as real < 1.0)
      && (exact <= 0.0 ==> 0.0 <= elapsed as real - exact < 1.0)
  {
  }

  /** The start is the integer next to the level of the warm-up line, the even one at a tie. */
  lemma StartIsNearest(warmup: seq<Sample>, nominal: real)
    requires warmup != []
    ensures var start, level := HostStart(warmup, nominal), WarmupIntercept(warmup, nominal);
      && -0.5 <= start as real - level <= 0.5
      && (start as real - level == 0.5 || start as real - level == -0.5 ==> start % 2 == 0)
  {
  }

  /** The estimate of the rate is nominal during the warm-up and the slope of the fit right after it. */
  lemma RateUntilAnchored(history: seq<Sample>, settings: Settings)
    requires settings.Valid() && |history| <= settings.warmupSamples
    ensures StateOf(history, settings).rate
         == if |history| < settings.warmupSamples then settings.nominal else WarmupSlope(history, settings.nominal)
  {
    assert history[..|history|] == history;
  }

  class ClockAnchor {
    const settings: Settings
    var rate: real
    var warmupBuffer: seq<Sample>
    var anchored: bool
    var deviceStart: int
    var hostStart: int
    var sumTicksSq: int
    var sumTicksNs: int
    var sampleCount: nat
    ghost var history: seq<Sample>

    function Current(): State
      reads this
    {
      State(rate, warmupBuffer, anchored, deviceStart, hostStart, sumTicksSq, sumTicksNs, sampleCount)
    }

    ghost predicate Valid()
      reads this
    {
      settings.Valid() && Current() == StateOf(history, settings)
    }

    constructor (deviceTicksToNs: real, warmupSamples: int)
      ensures Valid() && history == []
      ensures settings == Settings(deviceTicksToNs, if warmupSamples < 2 then 2 else warmupSamples)
    {
      settings := Settings(deviceTicksToNs, if warmupSamples < 2 then 2 else warmupSamples);
      rate, warmupBuffer, anchored := deviceTicksToNs, [], false;
      deviceStart, hostStart, sumTicksSq, sumTicksNs, sampleCount := 0, 0, 0, 0, 0;
      history := [];
    }

    /** `now` is the clock, for callers that give no observation. */
    method ToHostNs(deviceTicks: int, observed: Option<int>, now: int) returns (host: int)
      requires Valid()
      modifies this
      ensures Valid()
      ensures history == old(history) + [Sample(deviceTicks, if observed.Some? then observed.value else now)]
      ensures host == Output(history, settings)
      ensures |history| <= settings.warmupSamples ==> host == history[|history| - 1].host
    {
      var observedHost := if observed.Some? then observed.value else now;
      var sample := Sample(deviceTicks, observedHost);
      sampleCount := sampleCount + 1;
      history := history + [sample];
      if !anchored {
        warmupBuffer := warmupBuffer + [sample];
        if |warmupBuffer| >= settings.warmupSamples {
          FinishWarmup();
        }
        return observedHost;
      }
      AnchoredStep(old(history), sample, settings);
      host := Refine(sample);
    }

    /** The constant-time update of an anchored clock. */
    method Refine(sample: Sample) returns (host: int)
      modifies this
      ensures var x, y := sample.ticks - deviceStart, sample.host - hostStart;
        Current() == old(Current()).(
          sumTicksSq := old(sumTicksSq) + x * x, sumTicksNs := old(sumTicksNs) + x * y,
          rate := if sumTicksSq > 0 then sumTicksNs as real / sumTicksSq as real else old(rate))
      ensures host == hostStart + Scaled(sample.ticks - deviceStart, rate) && history == old(history)
    {
      var deltaTicks := sample.ticks - deviceStart;
      var deltaHost := sample.host - hostStart;
      sumTicksSq := sumTicksSq + deltaTicks * deltaTicks;
      sumTicksNs := sumTicksNs + deltaTicks * deltaHost;
      if sumTicksSq > 0 {
        rate := sumTicksNs as real / sumTicksSq as real;
      }
      host := hostStart + Scaled(deltaTicks, rate);
    }

    method FinishWarmup()
      requires settings.Valid() && |warmupBuffer| == settings.warmupSamples == sampleCount
      modifies this
      ensures Current() == StateOf(old(warmupBuffer), settings) && history == old(history)
    {
      var slope, intercept := FitLine(warmupBuffer, settings.nominal);
      deviceStart := warmupBuffer[0].ticks;
      hostStart := RoundHalfEven(intercept);
      rate := slope;
      sumTicksSq, sumTicksNs := FitSums(warmupBuffer, deviceStart, hostStart);
      assert warmupBuffer[..|warmupBuffer|] == warmupBuffer;
      warmupBuffer := [];
      anchored := true;
    }

    /** The line through the warm-up samples. */
    static method FitLine(buffer: seq<Sample>, nominal: real) returns (slope: real, intercept: real)
      requires buffer != []
      ensures slope == WarmupSlope(buffer, nominal) && intercept == WarmupIntercept(buffer, nominal)
    {
      var reference, n := buffer[0].ticks, |buffer|;
      var sumX, sumY, sumXX, sumXY := WarmupSums(buffer, reference);
      var denominator := n * sumXX - sumX * sumX;
      if denominator != 0 {
        slope := (n * sumXY - sumX * sumY) as real / denominator as real;
        intercept := Level(n, sumX, sumY, slope);
      } else {
        slope, intercept := nominal, buffer[0].host as real;
      }
    }

    static method WarmupSums(buffer: seq<Sample>, reference: int) returns (sumX: int, sumY: int, sumXX: int, sumXY: int)
      ensures sumX == SumX(buffer, reference) && sumY == SumY(buffer, 0)
      ensures sumXX == SumXX(buffer, reference) && sumXY == SumXY(buffer, reference, 0)
    {
      sumX, sumY, sumXX, sumXY := 0, 0, 0, 0;
      for i := 0 to |buffer|
        invariant sumX == SumX(buffer[..i], reference) && sumY == SumY(buffer[..i], 0)
        invariant sumXX == SumXX(buffer[..i], reference) && sumXY == SumXY(buffer[..i], reference, 0)
      {
        var x, host := buffer[i].ticks - reference, buffer[i].host;
        assert buffer[..i + 1][..i] == buffer[..i];
        sumX, sumY, sumXX, sumXY := sumX + x, sumY + host, sumXX + x * x, sumXY + x * host;
      }
      assert buffer[..|buffer|] == buffer;
    }

    static method FitSums(buffer: seq<Sample>, t0: int, h0: int) returns (ticksSq: int, ticksNs: int)
      ensures ticksSq == SumXX(buffer, t0) && ticksNs == SumXY(buffer, t0, h0)
    {
      ticksSq, ticksNs := 0, 0;
      for i := 0 to |buffer|
        invariant ticksSq == SumXX(buffer[..i], t0) && ticksNs == SumXY(buffer[..i], t0, h0)
      {
        var deltaTicks, deltaHost := buffer[i].ticks - t0, buffer[i].host - h0;
        assert buffer[..i + 1][..i] == buffer[..i];
        ticksSq, ticksNs := ticksSq + deltaTicks * deltaTicks, ticksNs + deltaTicks * deltaHost;
      }
      assert buffer[..|buffer|] == buffer;
    }
  }

  lemma SumsStep(history: seq<Sample>, sample: Sample, t0: int, h0: int)
    ensures SumXX(history + [sample], t0) == SumXX(history, t0) + Square(sample.ticks - t0)
    ensures SumXY(history + [sample], t0, h0) == SumXY(history, t0, h0) + (sample.ticks - t0) * (sample.host - h0)
    ensures SumXX(history, t0) <= SumXX(history + [sample], t0)
  {
    assert (history + [sample])[..|history|] == history;
  }

  lemma RateStep(history: seq<Sample>, sample: Sample, settings: Settings)
    requires settings.Valid() && settings.warmupSamples <= |history|
    ensures var longer, t0 := history + [sample], history[0].ticks;
      Rate(longer, settings)
        == if SumXX(longer, t0) > 0
           then SumXY(longer, t0, HostStart(history[..settings.warmupSamples], settings.nominal)) as real
                / SumXX(longer, t0) as real
           else Rate(history, settings)
  {
    assert (history + [sample])[..settings.warmupSamples] == history[..settings.warmupSamples];
    SumsStep(history, sample, history[0].ticks, 0);
  }

  /** The constant-time update of an anchored state is the state of the longer history. */
  lemma AnchoredStep(history: seq<Sample>, sample: Sample, settings: Settings)
    requires settings.Valid() && settings.warmupSamples <= |history|
    ensures var before, after := StateOf(history, settings), StateOf(history + [sample], settings);
      var x, y := sample.ticks - before.deviceStart, sample.host - before.hostStart;
      var sq, ns := before.sumTicksSq + x * x, before.sumTicksNs + x * y;
      after == State(if sq > 0 then ns as real / sq as real else before.rate, [], true, before.deviceStart,
                     before.hostStart, sq, ns, before.count + 1)
  {
    assert (history + [sample])[..settings.warmupSamples] == history[..settings.warmupSamples];
    RateStep(history, sample, settings);
    SumsStep(history, sample, history[0].ticks, HostStart(history[..settings.warmupSamples], settings.nominal));
  }
}
