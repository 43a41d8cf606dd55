/** One sensor of the live view: sequence numbers become sample counts and rates. */
module SensorTracking {
  import opened MachineInts
  import opened RunningStatistics

  /** What the reader hands out; `decodes` is false for an inertial sample that is too short. */
  datatype Reading = NoData | Reading(sequence: int, timestamp: int, decodes: bool)

  datatype Interval = Interval(rate: Option<real>, count: int, dt: Option<real>)

  function SequenceRate(previousSequence: Option<int>, previousTimestamp: Option<int>, sequence: int, timestamp: int):
    (interval: Interval)
    ensures interval.rate.Some? <==>
      && previousSequence.Some? && previousTimestamp.Some?
      && previousSequence.value < sequence && previousTimestamp.value < timestamp
    ensures interval.rate.Some? ==>
      && interval.count == sequence - previousSequence.value && interval.dt.Some?
      && Consistent(interval.rate.value, interval.dt.value, interval.count, timestamp - previousTimestamp.value)
    ensures interval.rate.None? ==> interval.count == 0 && interval.dt.None?
  {
    if previousSequence.None? || previousTimestamp.None? then
      Interval(None, 0, None)
    else
      var sequenceDelta, timestampDelta := sequence - previousSequence.value, timestamp - previousTimestamp.value;
      if sequenceDelta <= 0 || timestampDelta <= 0 then
        Interval(None, 0, None)
      else
        var dt := SampleInterval(sequenceDelta, timestampDelta);
        RateOfInterval(sequenceDelta, timestampDelta);
        Interval(if dt > 0.0 then Some(1.0 / dt) else None, sequenceDelta, Some(dt))
  }

  function SampleInterval(count: int, elapsed: int): real
    requires 0 < count
  {
    (elapsed as real / 1_000_000_000.0) / count as real
  }

  /** `count` samples at this rate, or this far apart, take `elapsed` nanoseconds. */
  predicate Consistent(rate: real, dt: real, count: int, elapsed: int) {
    rate * dt == 1.0 && dt * count as real * 1_000_000_000.0 == elapsed as real
  }

  lemma RateOfInterval(count: int, elapsed: int)
    requires 0 < count && 0 < elapsed
    ensures var dt := SampleInterval(count, elapsed);
      dt > 0.0 && Consistent(1.0 / dt, dt, count, elapsed)
  {
    var seconds := elapsed as real / 1_000_000_000.0;
    var dt := SampleInterval(count, elapsed);
    assert dt * count as real == seconds;
    PositiveFactor(dt, count as real);
  }

  lemma PositiveFactor(x: real, n: real)
    requires 0.0 < n && 0.0 < x * n
    ensures 0.0 < x
  {
  }

  datatype Outcome = Ignored | Rebased | Accepted | Raised

  /** The state of one sensor as a value, with the baseline (number and time at the last re-baselining) and
      the sample counts accepted since then and ever. */
  datatype Tracker = Tracker(
    attached: bool,
    lastTimestamp: Option<int>,
    lastSequence: Option<int>,
    lastDt: Option<real>,
    lastSampleCount: Option<int>,
    lastRate: Option<real>,
    lastReady: bool,
    baseline: Option<(int, int)>,
    counted: int,
    total: int)
  {
    /** What becomes of a reading. */
    function Fate(reading: Reading): Outcome {
      if !attached || reading.NoData? then Ignored
      else if lastSequence.None? || lastTimestamp.None? then (if reading.decodes then Accepted else Raised)
      else if reading.sequence == lastSequence.value then Ignored
      else if reading.sequence < lastSequence.value || reading.timestamp <= lastTimestamp.value then Rebased
      else if reading.decodes then Accepted
      else Raised
    }

    /** The time since the last reading, for an accepted reading that is not the first. */
    function IntervalTo(reading: Reading): Interval
      requires reading.Reading?
    {
      SequenceRate(lastSequence, lastTimestamp, reading.sequence, reading.timestamp)
    }

    /** The sensor after the reading. */
    function After(reading: Reading): Tracker {
      match Fate(reading)
      case Ignored => this
      case Raised => this
      case Rebased => Rebase(reading)
      case Accepted =>
        var interval := IntervalTo(reading);
        if interval.rate.None? then
          Rebase(reading)
        else
          this.(lastTimestamp := Some(reading.timestamp), lastSequence := Some(reading.sequence),
                lastDt := interval.dt, lastSampleCount := Some(interval.count), lastRate := interval.rate,
                lastReady := true, counted := counted + interval.count, total := total + interval.count)
    }

    /** The sensor starts over at the reading. */
    function Rebase(reading: Reading): Tracker
      requires reading.Reading?
    {
      this.(lastTimestamp := Some(reading.timestamp), lastSequence := Some(reading.sequence), lastDt := None,
            lastSampleCount := None, lastRate := None, lastReady := true,
            baseline := Some((reading.sequence, reading.timestamp)), counted := 0)
    }

    /** What the reading adds to the statistics. */
    function Samples(reading: Reading): seq<Sample>
      requires Sound()
    {
      if Fate(reading) == Accepted && IntervalTo(reading).rate.Some?
      then [Sample(IntervalTo(reading).rate.value, IntervalTo(reading).count)] else []
    }

    /** The counts accepted since the last re-baselining add up to the advance of the number since then. */
    predicate Sound() {
      match baseline
      case None =>
        lastSequence.None? && lastTimestamp.None? && lastSampleCount.None? && lastRate.None? && 0 <= total
      case Some((sequence, timestamp)) =>
        && lastSequence.Some? && counted == lastSequence.value - sequence && 0 <= counted <= total
        && lastTimestamp.Some? && timestamp <= lastTimestamp.value
        && (lastSampleCount.Some? <==> lastRate.Some?)
        && (lastSampleCount.Some? ==> 0 < lastSampleCount.value)
    }
  }

  /** What a reading does, in the fields before and after. A rate needs a larger number and a later time; the first
      reading, and one whose number or time has gone back, become the baseline; an equal number is the old
      reading again. Only a reading that is to be accepted is decoded. */
  ghost predicate Takes(s: Tracker, reading: Reading, t: Tracker, updated: bool, raised: bool) {
    if !s.attached || reading.NoData? then
      t == s && !updated && !raised
    else if s.lastSequence.Some? && s.lastTimestamp.Some? && reading.sequence == s.lastSequence.value then
      t == s && !updated && !raised
    else if s.lastSequence.Some? && s.lastTimestamp.Some?
      && (reading.sequence < s.lastSequence.value || reading.timestamp <= s.lastTimestamp.value) then
      BeginsAt(s, reading, t) && !updated && !raised
    else if !reading.decodes then
      t == s && !updated && raised
    else if s.lastSequence.None? || s.lastTimestamp.None? then
      BeginsAt(s, reading, t) && updated && !raised
    else
      Advances(s, reading, t) && updated && !raised
  }

  /** The reading is the baseline. */
  ghost predicate BeginsAt(s: Tracker, reading: Reading, t: Tracker) {
    && reading.Reading?
    && t.lastSequence == Some(reading.sequence) && t.lastTimestamp == Some(reading.timestamp)
    && t.lastDt == None && t.lastSampleCount == None && t.lastRate == None && t.lastReady
    && t.baseline == Some((reading.sequence, reading.timestamp)) && t.counted == 0
    && t.total == s.total && t.attached == s.attached
  }

  /** The samples since the last reading are counted, at the rate that goes with the time since then. */
  ghost predicate Advances(s: Tracker, reading: Reading, t: Tracker) {
    && reading.Reading? && s.lastSequence.Some? && s.lastTimestamp.Some?
    && var count, elapsed := reading.sequence - s.lastSequence.value, reading.timestamp - s.lastTimestamp.value;
       && t.lastSequence == Some(reading.sequence) && t.lastTimestamp == Some(reading.timestamp)
       && t.lastSampleCount == Some(count) && t.lastRate.Some? && t.lastDt.Some? && t.lastReady
       && t.lastRate.value * t.lastDt.value == 1.0
       && t.lastDt.value * count as real * 1_000_000_000.0 == elapsed as real
       && t.baseline == s.baseline && t.counted == s.counted + count
       && t.total == s.total + count && t.attached == s.attached
  }

  lemma AfterTakes(s: Tracker, reading: Reading)
    ensures Takes(s, reading, s.After(reading), s.Fate(reading) == Accepted, s.Fate(reading) == Raised)
  {
  }

  /** Every reading keeps that. */
  lemma AfterKeepsSound(t: Tracker, reading: Reading)
    requires t.Sound()
    ensures t.After(reading).Sound()
    ensures t.After(reading).total == t.total + Weight(t.Samples(reading))
  {
    if t.Samples(reading) != [] {
      assert t.Samples(reading)[..0] == [];
    }
  }

  /** An accepted reading with a rate leaves its sample in the last rate and the last count. */
  lemma SampleIsLast(t: Tracker, reading: Reading)
    requires t.Sound() && t.Fate(reading) == Accepted
    ensures var after := t.After(reading);
      && (after.lastRate.Some? <==> after.lastSampleCount.Some?)
      && (after.lastRate.None? ==> t.Samples(reading) == [])
      && (after.lastRate.Some? ==>
            && 0 < after.lastSampleCount.value
            && t.Samples(reading) == [Sample(after.lastRate.value, after.lastSampleCount.value)])
  {
  }

  /** The sensor after a run of readings. */
  function Track(t: Tracker, readings: seq<Reading>): Tracker {
    if readings == [] then t else Track(t, readings[..|readings| - 1]).After(readings[|readings| - 1])
  }

  /** Over any run of readings: the counts accepted since the last re-baselining add up to the advance of the
      number since then. */
  lemma {:induction false} Telescopes(t: Tracker, readings: seq<Reading>)
    requires t.Sound()
    ensures var end := Track(t, readings);
      && end.Sound()
      && (end.lastSequence.Some? ==> end.counted == end.lastSequence.value - end.baseline.value.0)
  {
    if readings != [] {
      Telescopes(t, readings[..|readings| - 1]);
      AfterKeepsSound(Track(t, readings[..|readings| - 1]), readings[|readings| - 1]);
    }
  }

  class SensorState {
    var attached: bool
    var lastTimestamp: Option<int>
    var lastSequence: Option<int>
    var lastDt: Option<real>
    var lastSampleCount: Option<int>
    var lastRate: Option<real>
    var lastReady: bool
    ghost var baseline: Option<(int, int)>
    ghost var counted: int
    ghost var total: int

    ghost function View(): Tracker
      reads this
    {
      Tracker(attached, lastTimestamp, lastSequence, lastDt, lastSampleCount, lastRate, lastReady, baseline, counted,
              total)
    }

    ghost predicate Valid()
      reads this
    {
      View().Sound()
    }

    constructor ()
      ensures Valid() && View() == Tracker(false, None, None, None, None, None, false, None, 0, 0)
    {
      attached, lastReady := false, false;
      lastTimestamp, lastSequence, lastDt, lastSampleCount, lastRate := None, None, None, None, None;
      baseline, counted, total := None, 0, 0;
    }

    method AttachReader()
      requires Valid()
      modifies this`attached
      ensures Valid() && View() == old(View()).(attached := true)
    {
      attached := true;
    }

    method Reset()
      requires Valid()
      modifies this
      ensures Valid() && View() == Tracker(false, None, None, None, None, None, false, None, 0, old(total))
    {
      attached, lastReady := false, false;
      lastTimestamp, lastSequence, lastDt, lastSampleCount, lastRate := None, None, None, None, None;
      baseline, counted := None, 0;
    }

    /** `updated` is the return value; `raised` is the exception of an undecodable sample. */
    method Update(reading: Reading) returns (updated: bool, raised: bool)
      requires Valid()
      modifies this
      ensures View() == old(View()).After(reading) && Valid()
      ensures Takes(old(View()), reading, View(), updated, raised)
      ensures updated == (old(View()).Fate(reading) == Accepted) && raised == (old(View()).Fate(reading) == Raised)
    {
      AfterKeepsSound(View(), reading);
      AfterTakes(View(), reading);
      if !attached || reading.NoData? {
        return false, false;
      }
      var rate: Option<real>, sampleCount: Option<int>, dt: Option<real> := None, None, None;
      if lastSequence.Some? && lastTimestamp.Some? {
        var interval := SequenceRate(lastSequence, lastTimestamp, reading.sequence, reading.timestamp);
        rate, sampleCount, dt := interval.rate, Some(interval.count), interval.dt;
        if reading.sequence == lastSequence.value {
          return false, false;
        }
        if rate.None? || interval.count == 0 || dt.None? {
          if reading.sequence < lastSequence.value || reading.timestamp <= lastTimestamp.value {
            lastTimestamp, lastSequence := Some(reading.timestamp), Some(reading.sequence);
            lastDt, lastSampleCount, lastRate, lastReady := None, None, None, true;
            baseline, counted := Some((reading.sequence, reading.timestamp)), 0;
          }
          return false, false;
        }
      }
      if !reading.decodes {
        return false, true;
      }
      if lastSequence.None? {
        baseline, counted := Some((reading.sequence, reading.timestamp)), 0;
      } else {
        counted, total := counted + sampleCount.value, total + sampleCount.value;
      }
      lastTimestamp, lastSequence := Some(reading.timestamp), Some(reading.sequence);
      lastDt, lastSampleCount, lastRate, lastReady := dt, sampleCount, rate, true;
      return true, false;
    }
  }

  // A collection round

  /** One sensor's part of a round: it takes its reading, and an accepted interval goes into the statistics. */
  method CollectFrom(state: SensorState, reading: Reading, stats: RunningStats) returns (raised: bool)
    requires state.Valid() && stats.Valid()
    modifies state, stats
    ensures state.Valid() && stats.Valid()
    ensures raised == (old(state.View()).Fate(reading) == Raised)
    ensures state.View() == old(state.View()).After(reading)
    ensures stats.added == old(stats.added) + old(state.View()).Samples(reading)
  {
    ghost var t: Tracker := state.View();
    if t.Fate(reading) == Accepted {
      SampleIsLast(t, reading);
    }
    var updated;
    updated, raised := state.Update(reading);
    if updated && state.lastRate.Some? && state.lastSampleCount.Some? {
      stats.Add(state.lastRate.value, state.lastSampleCount.value);
    }
  }

  /** The number of sensors in front of the first one that raises. */
  function Processed(trackers: seq<Tracker>, readings: seq<Reading>): (m: nat)
    requires |trackers| == |readings|
    ensures m <= |trackers|
    ensures m < |trackers| ==> trackers[m].Fate(readings[m]) == Raised
    ensures forall i :: 0 <= i < m ==> trackers[i].Fate(readings[i]) != Raised
  {
    if trackers == [] || trackers[0].Fate(readings[0]) == Raised then 0
    else
      var m := Processed(trackers[1..], readings[1..]);
      assert forall i :: 0 < i <= m ==> trackers[1..][i - 1] == trackers[i] && readings[1..][i - 1] == readings[i];
      assert m < |trackers| - 1 ==> trackers[1..][m] == trackers[m + 1] && readings[1..][m] == readings[m + 1];
      1 + m
  }

  predicate AllSound(trackers: seq<Tracker>) {
    forall i :: 0 <= i < |trackers| ==> trackers[i].Sound()
  }

  /** What the first `m` sensors add to the statistics, in order. */
  function AllSamples(trackers: seq<Tracker>, readings: seq<Reading>, m: nat): seq<Sample>
    requires m <= |trackers| == |readings|
    requires AllSound(trackers)
  {
    if m == 0 then [] else AllSamples(trackers, readings, m - 1) + trackers[m - 1].Samples(readings[m - 1])
  }

  ghost predicate Distinct(states: seq<SensorState>) {
    forall i, j :: 0 <= i < j < |states| ==> states[i] != states[j]
  }

  ghost predicate AllValid(states: seq<SensorState>)
    reads states
  {
    forall i :: 0 <= i < |states| ==> states[i].Valid()
  }

  ghost function Views(states: seq<SensorState>): (trackers: seq<Tracker>)
    reads states
    ensures |trackers| == |states|
    ensures AllValid(states) ==> AllSound(trackers)
  {
    seq(|states|, i requires 0 <= i < |states| reads states => states[i].View())
  }

  /** The sensors after the first `m` of them have taken their readings. */
  function AfterRound(trackers: seq<Tracker>, readings: seq<Reading>, m: nat): (after: seq<Tracker>)
    requires m <= |trackers| == |readings|
    ensures |after| == |trackers|
  {
    seq(|trackers|, i requires 0 <= i < |trackers| => if i < m then trackers[i].After(readings[i]) else trackers[i])
  }

  /** The sensor at `i` takes its reading, or raises and leaves the round where it is. */
  lemma RoundStep(before: seq<Tracker>, readings: seq<Reading>, i: nat, m: nat)
    requires i < |before| == |readings| && AllSound(before)
    requires m == if before[i].Fate(readings[i]) == Raised then i else i + 1
    ensures AfterRound(before, readings, i)[i] == before[i]
    ensures AfterRound(before, readings, i)[i := before[i].After(readings[i])] == AfterRound(before, readings, m)
    ensures AllSamples(before, readings, i) + before[i].Samples(readings[i]) == AllSamples(before, readings, m)
  {
  }

  /** The first `m` sensors have taken their readings, and the statistics hold what these add. */
  ghost predicate Collected(states: seq<SensorState>, stats: RunningStats, before: seq<Tracker>, added: seq<Sample>,
                            readings: seq<Reading>, m: nat)
    requires m <= |before| == |readings| && AllSound(before)
    reads states, stats
  {
    && stats.Valid()
    && Views(states) == AfterRound(before, readings, m)
    && stats.added == added + AllSamples(before, readings, m)
  }

  lemma CollectedAtStart(states: seq<SensorState>, stats: RunningStats, readings: seq<Reading>)
    requires |readings| == |states| && AllValid(states) && stats.Valid()
    ensures Collected(states, stats, Views(states), stats.added, readings, 0)
  {
    assert AfterRound(Views(states), readings, 0) == Views(states);
  }

  lemma CollectedIsValid(states: seq<SensorState>, stats: RunningStats, before: seq<Tracker>, added: seq<Sample>,
                         readings: seq<Reading>, m: nat)
    requires m <= |before| == |readings| && AllSound(before)
    requires Collected(states, stats, before, added, readings, m)
    ensures AllValid(states) && stats.Valid()
  {
    forall i | 0 <= i < |states|
      ensures states[i].Valid()
    {
      assert states[i].View() == Views(states)[i];
      AfterKeepsSound(before[i], readings[i]);
    }
  }

  /** One turn of the loop over the sensors; only the sensor at `i` changes. */
  method CollectAt(states: seq<SensorState>, readings: seq<Reading>, i: nat, stats: RunningStats,
                   ghost before: seq<Tracker>, ghost added: seq<Sample>)
    returns (raised: bool)
    requires i < |states| == |before| == |readings| && Distinct(states) && AllSound(before)
    requires Collected(states, stats, before, added, readings, i)
    modifies states[i], stats
    ensures raised == (before[i].Fate(readings[i]) == Raised)
    ensures raised ==> Collected(states, stats, before, added, readings, i)
    ensures !raised ==> Collected(states, stats, before, added, readings, i + 1)
  {
    ghost var start, m := Views(states), if before[i].Fate(readings[i]) == Raised then i else i + 1;
    RoundStep(before, readings, i, m);
    assert states[i].View() == start[i];
    raised := CollectFrom(states[i], readings[i], stats);
    forall j | 0 <= j < |states|
      ensures Views(states)[j] == start[i := states[i].View()][j]
    {
      if j != i {
        assert states[j] != states[i];
      }
    }
  }

  /** The loop over the sensors of one kind. Without an exception every sensor takes its reading; with one,
      exactly those before the sensor that raises. */
  method CollectOnce(states: seq<SensorState>, readings: seq<Reading>, stats: RunningStats) returns (raised: bool)
    requires |readings| == |states| && Distinct(states) && AllValid(states) && stats.Valid()
    modifies states, stats
    ensures AllValid(states) && stats.Valid()
    ensures var m := Processed(old(Views(states)), readings);
      && raised == (m < |states|)
      && Collected(states, stats, old(Views(states)), old(stats.added), readings, m)
  {
    ghost var before, added := Views(states), stats.added;
    ghost var m := Processed(before, readings);
    CollectedAtStart(states, stats, readings);
    for i := 0 to |states|
      invariant i <= m && Collected(states, stats, before, added, readings, i)
    {
      assert before[i].Fate(readings[i]) == Raised <==> i == m;
      raised := CollectAt(states, readings, i, stats, before, added);
      if raised {
        assert m == i;
        CollectedIsValid(states, stats, before, added, readings, i);
        return;
      }
    }
    assert m == |states|;
    CollectedIsValid(states, stats, before, added, readings, |states|);
    raised := false;
  }
}
