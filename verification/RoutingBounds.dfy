/** Bounds of the floor arithmetic behind route scores. */
module RoutingBounds {
  import opened Wrappers
  import opened Routing

  lemma Times(a: int, b: int, k: int)
    requires a <= b && 0 <= k
    ensures a * k <= b * k
  {}

  lemma DivideLower(x: int, d: int, m: int)
    requires 0 < d && m * d <= x
    ensures m <= x / d
  {
    var q := x / d;
    assert x < (q + 1) * d;
    if q < m {
      Times(q + 1, m, d);
    }
  }

  lemma DivideUpper(x: int, d: int, m: int)
    requires 0 < d && x < (m + 1) * d
    ensures x / d <= m
  {
    var q := x / d;
    assert q * d <= x;
    if m < q {
      Times(m + 1, q, d);
    }
  }

  function Least(a: int, b: int): int {
    if a < b then a else b
  }

  function Greatest(a: int, b: int): int {
    if a < b then b else a
  }

  /** The observed rate, as the health snapshot rounds it. */
  function ObservedRate(health: Snapshot): int
    requires 0 < health.sampleCount
  {
    health.successCount * 10_000 / health.sampleCount
  }

  /** A weighted mean of `b` and `hits / n`, rounded down, is no less than either rounded down. */
  lemma MediantLower(b: int, w: int, hits: int, n: int, low: int)
    requires 0 < w && 0 < n && low <= b && low <= hits / n
    ensures low <= (b * w + hits) / (w + n)
  {
    Times(low, b, w);
    Times(low, hits / n, n);
    assert low * (w + n) == low * w + low * n;
    DivideLower(b * w + hits, w + n, low);
  }

  lemma MediantUpper(b: int, w: int, hits: int, n: int, high: int)
    requires 0 < w && 0 < n && b <= high && hits / n <= high
    ensures (b * w + hits) / (w + n) <= high
  {
    var q := hits / n;
    assert hits < (q + 1) * n;
    Times(b, high, w);
    Times(q + 1, high + 1, n);
    assert (high + 1) * (w + n) == high * w + w + (high + 1) * n;
    DivideUpper(b * w + hits, w + n, high);
  }

  /** With samples, effective success lies between the baseline and the observed rate. */
  lemma EffectiveBetween(c: Candidate, health: Snapshot)
    requires c.Valid() && health.Valid() && 0 < health.sampleCount
    ensures Least(c.baselineSuccess, ObservedRate(health)) <= EffectiveSuccess(c, health)
            <= Greatest(c.baselineSuccess, ObservedRate(health))
  {
    var hits := health.successCount * 10_000;
    MediantLower(c.baselineSuccess, c.baselineWeight, hits, health.sampleCount,
                 Least(c.baselineSuccess, ObservedRate(health)));
    MediantUpper(c.baselineSuccess, c.baselineWeight, hits, health.sampleCount,
                 Greatest(c.baselineSuccess, ObservedRate(health)));
  }

  /** Hence effective success is always a rate in basis points. */
  lemma EffectiveInRange(c: Candidate, health: Snapshot)
    requires c.Valid() && health.Valid()
    ensures 0 <= EffectiveSuccess(c, health) <= 10_000
  {
    if 0 < health.sampleCount {
      EffectiveBetween(c, health);
      DivideUpper(health.successCount * 10_000, health.sampleCount, 10_000);
      DivideLower(health.successCount * 10_000, health.sampleCount, 0);
    }
  }

  ghost function Numerator(c: Candidate, health: Snapshot): int {
    c.baselineSuccess * c.baselineWeight + health.successCount * 10_000
  }

  lemma EffectiveAsQuotient(c: Candidate, health: Snapshot)
    requires c.Valid() && health.Valid()
    ensures EffectiveSuccess(c, health) == Numerator(c, health) / (c.baselineWeight + health.sampleCount)
  {
    if health.sampleCount == 0 {
      DivideLower(c.baselineSuccess * c.baselineWeight, c.baselineWeight, c.baselineSuccess);
      DivideUpper(c.baselineSuccess * c.baselineWeight, c.baselineWeight, c.baselineSuccess);
    }
  }

  /** One more success never lowers effective success. */
  lemma SuccessNeverLowers(c: Candidate, before: Snapshot, after: Snapshot)
    requires c.Valid() && before.Valid() && after.Valid()
    requires after.sampleCount == before.sampleCount + 1 && after.successCount == before.successCount + 1
    ensures EffectiveSuccess(c, before) <= EffectiveSuccess(c, after)
  {
    EffectiveAsQuotient(c, before);
    EffectiveAsQuotient(c, after);
    EffectiveInRange(c, before);
    var d, q := c.baselineWeight + before.sampleCount, EffectiveSuccess(c, before);
    assert q * d <= Numerator(c, before);
    assert q * (d + 1) == q * d + q;
    DivideLower(Numerator(c, after), d + 1, q);
  }

  /** One more failure never raises it. */
  lemma FailureNeverRaises(c: Candidate, before: Snapshot, after: Snapshot)
    requires c.Valid() && before.Valid() && after.Valid()
    requires after.sampleCount == before.sampleCount + 1 && after.successCount == before.successCount
    ensures EffectiveSuccess(c, after) <= EffectiveSuccess(c, before)
  {
    EffectiveAsQuotient(c, before);
    EffectiveAsQuotient(c, after);
    EffectiveInRange(c, before);
    var d, q := c.baselineWeight + before.sampleCount, EffectiveSuccess(c, before);
    assert Numerator(c, before) < (q + 1) * d;
    assert (q + 1) * (d + 1) == (q + 1) * d + q + 1;
    DivideUpper(Numerator(c, after), d + 1, q);
  }

  lemma InverseInRange(value: int, maximum: int)
    requires 0 <= value && 0 <= maximum
    ensures 0 <= InverseScore(value, maximum) <= 10_000
    ensures 0 < maximum && value <= maximum ==> InverseScore(value, maximum) == 10_000 - value * 10_000 / maximum
    ensures value == 0 ==> InverseScore(value, maximum) == 10_000
  {
    if 0 < maximum {
      DivideLower(value * 10_000, maximum, 0);
      if value <= maximum {
        DivideUpper(value * 10_000, maximum, 10_000);
      }
      if value == 0 {
        DivideUpper(0, maximum, 0);
      }
    }
  }

  /** What exceeds the maximum scores nothing. */
  lemma InverseBeyond(value: int, maximum: int)
    requires 0 <= maximum < value
    ensures InverseScore(value, maximum) == 0
  {
    if 0 < maximum {
      DivideLower(value * 10_000, maximum, 10_000);
    }
  }

  /** A larger latency or cost never scores better. */
  lemma InverseAntitone(a: int, b: int, maximum: int)
    requires 0 <= a <= b && 0 <= maximum
    ensures InverseScore(b, maximum) <= InverseScore(a, maximum)
  {
    if 0 < maximum {
      var q := a * 10_000 / maximum;
      assert q * maximum <= a * 10_000;
      DivideLower(b * 10_000, maximum, q);
    }
  }

  /** The weighted score lies between the least and the greatest component. */
  lemma WeightedBetween(w: Weights, reliability: int, latency: int, cost: int)
    requires 0 <= w.reliability && 0 <= w.latency && 0 <= w.cost && 0 < w.reliability + w.latency + w.cost
    ensures Least(reliability, Least(latency, cost)) <= WeightedScore(w, reliability, latency, cost)
            <= Greatest(reliability, Greatest(latency, cost))
  {
    var low, high := Least(reliability, Least(latency, cost)), Greatest(reliability, Greatest(latency, cost));
    var total := w.reliability + w.latency + w.cost;
    var sum := reliability * w.reliability + latency * w.latency + cost * w.cost;
    Times(low, reliability, w.reliability);
    Times(low, latency, w.latency);
    Times(low, cost, w.cost);
    assert low * total == low * w.reliability + low * w.latency + low * w.cost;
    DivideLower(sum, total, low);
    Times(reliability, high, w.reliability);
    Times(latency, high, w.latency);
    Times(cost, high, w.cost);
    assert (high + 1) * total == high * w.reliability + high * w.latency + high * w.cost + total;
    DivideUpper(sum, total, high);
  }

  /** Every evaluation passes its own validator: all rates are in basis points, scores exist iff eligible. */
  lemma EvaluationInRange(request: Request, c: Candidate, health: Option<Snapshot>, policy: Policy)
    requires c.Valid() && policy.Valid() && (health.Some? ==> health.value.Valid())
    ensures var e := Evaluate(request, c, health, policy);
            && 0 <= e.effectiveSuccess <= 10_000 && 0 <= e.effectiveLatency <= MAX_LATENCY_MS
            && (e.Eligible() <==> e.scores.Some?)
            && (e.scores.Some? ==>
                  && 0 <= e.scores.value.reliability <= 10_000 && 0 <= e.scores.value.latency <= 10_000
                  && 0 <= e.scores.value.cost <= 10_000 && 0 <= e.scores.value.weighted <= 10_000)
  {
    if health.Some? {
      EffectiveInRange(c, health.value);
    }
    var success, latency := SuccessOf(c, health), LatencyOf(c, health);
    InverseInRange(latency, policy.maximumLatency);
    InverseInRange(c.cost, policy.maximumCost);
    WeightedBetween(policy.weights, success, InverseScore(latency, policy.maximumLatency),
                    InverseScore(c.cost, policy.maximumCost));
  }
}
