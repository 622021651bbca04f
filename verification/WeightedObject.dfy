/** The mutable weighted accumulators; each update is one transition of the value models. */
module WeightedObject {
  import opened Errors
  import opened Reals
  import opened Weighted
  import WeightedDecay

  class WeightedMean {
    var totalWeight: real
    var mean: real
    var samplesSeen: nat

    function View(): MeanState
      reads this
    {
      MeanState(totalWeight, mean, samplesSeen)
    }

    constructor ()
      ensures View() == MeanState(0.0, 0.0, 0)
    {
      totalWeight, mean, samplesSeen := 0.0, 0.0, 0;
    }

    /** `update_weighted`: an error or a zero weight changes nothing. */
    method UpdateWeighted(value: real, weight: real) returns (r: Result<()>)
      requires MeanValid(View())
      modifies this
      ensures MeanValid(View())
      ensures match UpdateMean(old(View()), value, weight)
        case Ok(after) => r == Ok(()) && View() == after
        case Err(e) => r == Err(e) && View() == old(View())
    {
      var allowed := ValidateWeight(weight);
      if allowed.Err? {
        return Err(allowed.error);
      }
      if weight == 0.0 {
        return Ok(());
      }
      var nextWeight := totalWeight + weight;
      var nextMean := mean + (value - mean) * (weight / nextWeight);
      var nextSamples := CheckedIncrement(samplesSeen);
      if nextSamples.Err? {
        return Err(nextSamples.error);
      }
      totalWeight, mean, samplesSeen := nextWeight, nextMean, nextSamples.value;
      r := Ok(());
    }

    method Reset()
      modifies this
      ensures View() == MeanState(0.0, 0.0, 0)
    {
      totalWeight, mean, samplesSeen := 0.0, 0.0, 0;
    }

    method Value() returns (r: Option<real>)
      ensures r == MeanValue(View())
    {
      r := if totalWeight > 0.0 then Some(mean) else None;
    }
  }

  class WeightedVariance {
    var totalWeight: real
    var mean: real
    var m2: real
    var samplesSeen: nat

    function View(): VarianceState
      reads this
    {
      VarianceState(totalWeight, mean, m2, samplesSeen)
    }

    constructor ()
      ensures View() == VarianceState(0.0, 0.0, 0.0, 0) && Weighted.Fresh(View())
    {
      totalWeight, mean, m2, samplesSeen := 0.0, 0.0, 0.0, 0;
    }

    /** `update_weighted`: fails only on a negative weight or a full counter, and then changes nothing. */
    method UpdateWeighted(value: real, weight: real) returns (r: Result<()>)
      requires VarianceValid(View())
      modifies this
      ensures VarianceValid(View())
      ensures match UpdateVariance(old(View()), value, weight)
        case Ok(after) => r == Ok(()) && View() == after
        case Err(e) => r == Err(e) && View() == old(View())
      ensures r.Err? <==> weight < 0.0 || (weight > 0.0 && old(samplesSeen) == U64_MAX)
    {
      var allowed := ValidateWeight(weight);
      if allowed.Err? {
        return Err(allowed.error);
      }
      if weight == 0.0 {
        return Ok(());
      }
      UpdateAddsMoments(View(), value, weight);
      var nextMean := NextMean(totalWeight, mean, value, weight);
      r := Commit(weight, nextMean, m2 + SpreadStep(weight, value, mean, nextMean));
    }

    /** The guard, the counter and the four assignments. */
    method Commit(weight: real, nextMean: real, nextM2: real) returns (r: Result<()>)
      modifies this
      ensures match CommitVariance(old(View()), weight, nextMean, nextM2)
        case Ok(after) => r == Ok(()) && View() == after
        case Err(e) => r == Err(e) && View() == old(View())
    {
      var nextWeight := totalWeight + weight;
      if nextM2 < -EPSILON * (if nextWeight >= 1.0 then nextWeight else 1.0) {
        return Err(InvalidState(NegativeSpread));
      }
      var nextSamples := CheckedIncrement(samplesSeen);
      if nextSamples.Err? {
        return Err(nextSamples.error);
      }
      totalWeight, mean, samplesSeen := nextWeight, nextMean, nextSamples.value;
      m2 := if nextM2 >= 0.0 then nextM2 else 0.0;
      r := Ok(());
    }

    method Reset()
      modifies this
      ensures View() == VarianceState(0.0, 0.0, 0.0, 0) && Weighted.Fresh(View())
    {
      totalWeight, mean, m2, samplesSeen := 0.0, 0.0, 0.0, 0;
    }

    method Value() returns (r: Option<real>)
      ensures r == VarianceValue(View())
    {
      r := if totalWeight > 0.0 then Some(m2 / totalWeight) else None;
    }
  }

  class DecayedMean {
    const alpha: real
    const pow: (real, real) -> real
    var totalWeight: real
    var mean: real
    var samplesSeen: nat

    function View(): WeightedDecay.DecayState
      reads this
    {
      WeightedDecay.DecayState(alpha, totalWeight, mean, samplesSeen)
    }

    constructor (s: WeightedDecay.DecayState, pow: (real, real) -> real)
      ensures View() == s && this.pow == pow
    {
      this.pow := pow;
      alpha, totalWeight, mean, samplesSeen := s.alpha, s.totalWeight, s.mean, s.samplesSeen;
    }

    static method New(alpha: real, pow: (real, real) -> real) returns (r: Result<DecayedMean>)
      ensures r.Ok? ==> fresh(r.value) && r.value.pow == pow && WeightedDecay.Valid(r.value.View())
      ensures r.Ok? ==> WeightedDecay.New(alpha) == Ok(r.value.View())
      ensures r.Err? ==> WeightedDecay.New(alpha) == Err(r.error)
    {
      match WeightedDecay.New(alpha)
      case Err(e) => r := Err(e);
      case Ok(s) =>
        var decayed := new DecayedMean(s, pow);
        r := Ok(decayed);
    }

    method UpdateWeighted(value: real, weight: real) returns (r: Result<()>)
      requires WeightedDecay.Valid(View())
      modifies this
      ensures WeightedDecay.Valid(View())
      ensures match WeightedDecay.Update(pow, old(View()), value, weight)
        case Ok(after) => r == Ok(()) && View() == after
        case Err(e) => r == Err(e) && View() == old(View())
    {
      var allowed := ValidateWeight(weight);
      if allowed.Err? {
        return Err(allowed.error);
      }
      if weight == 0.0 {
        return Ok(());
      }
      var nextSamples := CheckedIncrement(samplesSeen);
      if nextSamples.Err? {
        return Err(nextSamples.error);
      }
      if totalWeight == 0.0 {
        mean := value;
      } else {
        var effectiveAlpha := 1.0 - pow(1.0 - alpha, weight);
        mean := mean + effectiveAlpha * (value - mean);
      }
      totalWeight, samplesSeen := totalWeight + weight, nextSamples.value;
      r := Ok(());
    }

    method Reset()
      modifies this
      ensures View() == old(View()).(totalWeight := 0.0, mean := 0.0, samplesSeen := 0)
    {
      totalWeight, mean, samplesSeen := 0.0, 0.0, 0;
    }
  }
}
