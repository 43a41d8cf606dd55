/** The live view's statistics: a weighted streaming mean and variance. Floating-point numbers are reals. */
module RunningStatistics {

  /** One `add` that counts: a value and its positive weight. */
  datatype Sample = Sample(value: real, weight: nat)

  // Batch statistics

  function Weight(s: seq<Sample>): nat {
    if s == [] then 0 else Weight(s[..|s| - 1]) + s[|s| - 1].weight
  }

  function WeightedSum(s: seq<Sample>): real {
    if s == [] then 0.0 else WeightedSum(s[..|s| - 1]) + Weighted(s[|s| - 1].weight as real, s[|s| - 1].value)
  }

  function Weighted(w: real, v: real): real {
    w * v
  }

  /** The weighted sum of squared distances from `m`. */
  function Deviation(s: seq<Sample>, m: real): real {
    if s == [] then 0.0 else Deviation(s[..|s| - 1], m) + Spread(s[|s| - 1].weight as real, s[|s| - 1].value - m)
  }

  function Spread(w: real, d: real): real {
    w * (d * d)
  }

  /** The deviation from `m + d`, given that from `m`, the weighted sum and the weight. */
  function Moved(deviation: real, sum: real, total: real, m: real, d: real): real {
    deviation - 2.0 * d * (sum - m * total) + Spread(total, d)
  }

  lemma MovedStep(deviation: real, sum: real, total: real, w: real, v: real, m: real, d: real)
    ensures Moved(deviation + Spread(w, v - m), sum + Weighted(w, v), total + w, m, d)
         == Moved(deviation, sum, total, m, d) + Spread(w, v - (m + d))
  {
  }

  lemma {:induction false} DeviationMoves(s: seq<Sample>, m: real, d: real)
    ensures Deviation(s, m + d) == Moved(Deviation(s, m), WeightedSum(s), Weight(s) as real, m, d)
  {
    if s != [] {
      var before, last := s[..|s| - 1], s[|s| - 1];
      DeviationMoves(before, m, d);
      MovedStep(Deviation(before, m), WeightedSum(before), Weight(before) as real, last.weight as real, last.value,
                m, d);
    }
  }

  lemma {:induction false} DeviationSign(s: seq<Sample>, m: real)
    ensures 0.0 <= Deviation(s, m)
  {
    if s != [] {
      DeviationSign(s[..|s| - 1], m);
      SpreadSign(s[|s| - 1].weight as real, s[|s| - 1].value - m);
    }
  }

  lemma SpreadSign(w: real, d: real)
    requires 0.0 <= w
    ensures 0.0 <= Spread(w, d)
  {
  }

  predicate IsMean(count: nat, mean: real, sum: real) {
    count as real * mean == sum
  }

  /** The three numbers are the batch statistics of the samples. */
  ghost predicate Summarizes(count: nat, mean: real, m2: real, s: seq<Sample>) {
    count == Weight(s) && IsMean(count, mean, WeightedSum(s)) && m2 == Deviation(s, mean)
  }

  // The update

  function NextMean(count: nat, mean: real, value: real, weight: nat): real
    requires 0 < count + weight
  {
    mean + ((value - mean) * weight as real) / (count + weight) as real
  }

  function NextM2(m2: real, mean: real, next: real, value: real, weight: nat): real {
    m2 + (value - mean) * (value - next) * weight as real
  }

  lemma UpdateAlgebra(total: real, w: real, mean: real, value: real, next: real)
    requires 0.0 <= total && 0.0 < w && next == mean + ((value - mean) * w) / (total + w)
    ensures (total + w) * next == total * mean + w * value
    ensures Spread(total, next - mean) + Spread(w, value - next) == (value - mean) * (value - next) * w
  {
    var d, step := value - mean, next - mean;
    assert step * (total + w) == d * w;
    assert (total + w) * next == (total + w) * mean + step * (total + w);
    assert value - next == d - step;
    assert Spread(total, step) + Spread(w, d - step)
        == (total + w) * step * step - 2.0 * w * d * step + w * d * d;
    assert (total + w) * step * step == d * w * step by {
      assert (total + w) * step * step == (step * (total + w)) * step;
    }
  }

  lemma MeanStep(count: nat, mean: real, sum: real, value: real, weight: nat)
    requires IsMean(count, mean, sum) && 0 < weight
    ensures IsMean(count + weight, NextMean(count, mean, value, weight), sum + Weighted(weight as real, value))
  {
    UpdateAlgebra(count as real, weight as real, mean, value, NextMean(count, mean, value, weight));
  }

  lemma DeviationStep(count: nat, mean: real, sum: real, m2: real, value: real, weight: nat)
    requires IsMean(count, mean, sum) && 0 < weight
    ensures var next := NextMean(count, mean, value, weight);
      NextM2(m2, mean, next, value, weight)
        == Moved(m2, sum, count as real, mean, next - mean) + Spread(weight as real, value - next)
  {
    UpdateAlgebra(count as real, weight as real, mean, value, NextMean(count, mean, value, weight));
    assert sum - mean * count as real == 0.0;
  }

  lemma UpdateSummarizes(count: nat, mean: real, m2: real, s: seq<Sample>, value: real, weight: nat)
    requires Summarizes(count, mean, m2, s) && 0 < weight
    ensures var next := NextMean(count, mean, value, weight);
      Summarizes(count + weight, next, NextM2(m2, mean, next, value, weight), s + [Sample(value, weight)])
  {
    var next, longer := NextMean(count, mean, value, weight), s + [Sample(value, weight)];
    assert longer[..|s|] == s;
    MeanStep(count, mean, WeightedSum(s), value, weight);
    DeviationMoves(s, mean, next - mean);
    DeviationStep(count, mean, WeightedSum(s), m2, value, weight);
    assert mean + (next - mean) == next;
  }

  /** The mean is the only number with the least weighted squared distance from the samples, and that distance is
      the spread. */
  lemma MeanIsBest(count: nat, mean: real, m2: real, s: seq<Sample>, m: real)
    requires Summarizes(count, mean, m2, s) && 0 < count
    ensures m2 <= Deviation(s, m)
    ensures m2 == Deviation(s, m) <==> m == mean
  {
    DeviationMoves(s, mean, m - mean);
    assert mean + (m - mean) == m;
    MovedFromMean(m2, WeightedSum(s), count as real, mean, m - mean);
    SpreadZero(count as real, m - mean);
  }

  lemma MovedFromMean(m2: real, sum: real, total: real, mean: real, d: real)
    requires total * mean == sum
    ensures Moved(m2, sum, total, mean, d) == m2 + Spread(total, d)
  {
    assert sum - mean * total == 0.0;
  }

  lemma SpreadZero(w: real, d: real)
    requires 0.0 < w
    ensures 0.0 <= Spread(w, d) && (Spread(w, d) == 0.0 <==> d == 0.0)
  {
    if d != 0.0 {
      PositiveProduct(if d < 0.0 then -d else d, if d < 0.0 then -d else d, d * d);
      PositiveProduct(w, d * d, Spread(w, d));
    }
  }

  lemma PositiveProduct(x: real, y: real, product: real)
    requires 0.0 < x && 0.0 < y && product == x * y
    ensures 0.0 < product
  {
    assert 0.0 < x * y;
  }

  // The order of the samples

  lemma {:induction false} Concatenation(a: seq<Sample>, b: seq<Sample>, m: real)
    ensures Weight(a + b) == Weight(a) + Weight(b) && WeightedSum(a + b) == WeightedSum(a) + WeightedSum(b)
    ensures Deviation(a + b, m) == Deviation(a, m) + Deviation(b, m)
    decreases |b|
  {
    if b == [] {
      assert a + b == a;
    } else {
      Concatenation(a, b[..|b| - 1], m);
      assert (a + b)[..|a + b| - 1] == a + b[..|b| - 1];
    }
  }

  /** The batch sums of one sample; those of more add up. */
  lemma OneSample(x: Sample, m: real)
    ensures Weight([x]) == x.weight && WeightedSum([x]) == x.weight as real * x.value
    ensures Deviation([x], m) == x.weight as real * ((x.value - m) * (x.value - m))
  {
    assert [x][..0] == [];
  }

  lemma TakeOut<T>(t: seq<T>, i: nat)
    requires i < |t|
    ensures t == t[..i] + ([t[i]] + t[i + 1..])
    ensures multiset(t[..i] + t[i + 1..]) == multiset(t) - multiset{t[i]}
  {
    assert t == t[..i] + ([t[i]] + t[i + 1..]);
    assert multiset(t) == multiset(t[..i]) + multiset([t[i]] + t[i + 1..]);
    assert multiset([t[i]] + t[i + 1..]) == multiset([t[i]]) + multiset(t[i + 1..]);
  }

  /** The three batch sums at once. */
  function Sums(s: seq<Sample>, m: real): (nat, real, real) {
    (Weight(s), WeightedSum(s), Deviation(s, m))
  }

  function Plus(sums: (nat, real, real), x: Sample, m: real): (nat, real, real) {
    (sums.0 + x.weight, sums.1 + Weighted(x.weight as real, x.value), sums.2 + Spread(x.weight as real, x.value - m))
  }

  lemma LastSum(s: seq<Sample>, m: real)
    requires s != []
    ensures Sums(s, m) == Plus(Sums(s[..|s| - 1], m), s[|s| - 1], m)
  {
  }

  lemma InsideSum(front: seq<Sample>, x: Sample, back: seq<Sample>, m: real)
    ensures Sums(front + ([x] + back), m) == Plus(Sums(front + back, m), x, m)
  {
    Concatenation(front, back, m);
    Concatenation([x], back, m);
    Concatenation(front, [x] + back, m);
    assert [x][..0] == [];
  }

  lemma {:induction false} Permutation(s: seq<Sample>, t: seq<Sample>, m: real)
    requires multiset(s) == multiset(t)
    ensures Sums(s, m) == Sums(t, m)
  {
    if s == [] {
      assert |t| == |multiset(t)|;
    } else {
      var last := |s| - 1;
      assert s[last] in multiset(t);
      var i :| 0 <= i < |t| && t[i] == s[last];
      TakeOut(s, last);
      TakeOut(t, i);
      assert s[..last] + s[last + 1..] == s[..last];
      Permutation(s[..last], t[..i] + t[i + 1..], m);
      InsideSum(t[..i], t[i], t[i + 1..], m);
      LastSum(s, m);
    }
  }

  /** The same samples in another order lead to the same numbers. */
  lemma OrderIndependent(count: nat, mean: real, m2: real, s: seq<Sample>,
                         count': nat, mean': real, m2': real, t: seq<Sample>)
    requires Summarizes(count, mean, m2, s) && Summarizes(count', mean', m2', t) && multiset(s) == multiset(t)
    requires 0 < count
    ensures count == count' && mean == mean' && m2 == m2'
  {
    Permutation(s, t, mean);
    SameMean(count, mean, mean', WeightedSum(s));
  }

  lemma SameMean(count: nat, a: real, b: real, sum: real)
    requires 0 < count && IsMean(count, a, sum) && IsMean(count, b, sum)
    ensures a == b
  {
    assert count as real * (a - b) == 0.0;
  }

  class RunningStats {
    var count: nat
    var mean: real
    var m2: real
    ghost var added: seq<Sample>

    ghost predicate Valid()
      reads this
    {
      Summarizes(count, mean, m2, added)
    }

    constructor ()
      ensures Valid() && added == []
    {
      count, mean, m2, added := 0, 0.0, 0.0, [];
    }

    method Reset()
      modifies this
      ensures Valid() && added == [] && count == 0
    {
      count, mean, m2, added := 0, 0.0, 0.0, [];
    }

    /** What the live view shows; the square root of the variance is left to it. */
    method Snapshot() returns (mean: real, variance: real, samples: nat)
      requires Valid()
      ensures samples == Weight(added) && 0.0 <= variance
      ensures samples == 0 ==> mean == 0.0 && variance == 0.0
      ensures samples > 0 ==>
        && mean * samples as real == WeightedSum(added)
        && variance * samples as real == Deviation(added, mean)
    {
      if count == 0 {
        return 0.0, 0.0, 0;
      }
      DeviationSign(added, this.mean);
      variance := m2 / count as real;
      assert variance * count as real == m2;
      if variance < 0.0 {
        variance := 0.0;
      }
      mean, samples := this.mean, count;
    }

    /** A weight that is not positive is ignored. */
    method Add(value: real, weight: int)
      requires Valid()
      modifies this
      ensures Valid()
      ensures added == if weight <= 0 then old(added) else old(added) + [Sample(value, weight)]
      ensures count == old(count) + if weight <= 0 then 0 else weight
    {
      if weight <= 0 {
        return;
      }
      UpdateSummarizes(count, mean, m2, added, value, weight);
      mean, m2 := Update(count, mean, m2, value, weight);
      count := count + weight;
      added := added + [Sample(value, weight)];
    }

    static method Update(count: nat, mean: real, m2: real, value: real, weight: nat) returns (mean': real, m2': real)
      requires 0 < weight
      ensures mean' == NextMean(count, mean, value, weight) && m2' == NextM2(m2, mean, mean', value, weight)
    {
      var weightedCount := count + weight;
      var delta := value - mean;
      mean' := mean + (delta * weight as real) / weightedCount as real;
      var delta2 := value - mean';
      m2' := m2 + delta * delta2 * weight as real;
    }
  }
}
