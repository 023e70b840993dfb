/**
 * Wall-velocity profiles (`VolumeProfile` and `PressureRiseProfile`): a volume
 * history is turned into a velocity history by differentiation against time,
 * and the velocity at any instant is read off by linear interpolation, zero
 * outside the sampled range. The pressure-rise variant first builds its volume
 * history from the linear pressure law and an isentropic density query.
 */
module Profiles {
  import opened Outcomes
  import opened Differentiation
  import opened Interpolation

  /** Sampling rate of the synthetic pressure history, in Hz. */
  const SamplingFrequency: real := 20000.0

  datatype ProfileError =
    | EmptyHistory                    // no volume sample to normalise by
    | ZeroInitialVolume               // normalising by zero gives no finite volumes
    | ZeroDensity                     // the isentropic density query returned zero
    | Derivative(cause: DerivativeError)

  /** Sample times and the wall velocity at each of them. */
  datatype VelocityProfile = VelocityProfile(times: seq<real>, velocity: seq<real>)
  {
    predicate Valid()
    {
      |times| == |velocity| >= 3 && StrictlyIncreasing(times)
    }

    /** The wall velocity at time t, the callback handed to the moving wall. */
    function Velocity(t: real): (v: real)
      requires Valid()
      ensures t < times[0] ==> v == 0.0
      ensures t > times[|times| - 1] ==> v == 0.0
    {
      Interp(t, times, velocity, 0.0, 0.0)
    }
  }

  /** At a sample time the query returns that sample's velocity. */
  lemma VelocityAtSample(p: VelocityProfile, k: nat)
    requires p.Valid() && k < |p.times|
    ensures p.Velocity(p.times[k]) == p.velocity[k]
  {
    InterpAtSample(p.times, p.velocity, 0.0, 0.0, k);
  }

  /**
   * Between two consecutive sample times the query is the straight line
   * through their velocities, so it lies between the two.
   */
  lemma VelocityBetweenSamples(p: VelocityProfile, k: nat, t: real)
    requires p.Valid() && k + 1 < |p.times| && p.times[k] <= t <= p.times[k + 1]
    ensures p.Velocity(t) == Lerp(p.times[k], p.velocity[k], p.times[k + 1], p.velocity[k + 1], t)
    ensures p.velocity[k] <= p.velocity[k + 1] ==> p.velocity[k] <= p.Velocity(t) <= p.velocity[k + 1]
    ensures p.velocity[k + 1] <= p.velocity[k] ==> p.velocity[k + 1] <= p.Velocity(t) <= p.velocity[k]
  {
    InterpOnSegment(p.times, p.velocity, 0.0, 0.0, k, t);
    LerpBetween(p.times[k], p.velocity[k], p.times[k + 1], p.velocity[k + 1], t);
  }

  /** Volumes divided by the first one, so that a unit wall area can be used. */
  function Normalize(volumes: seq<real>): (r: Result<seq<real>, ProfileError>)
    ensures |volumes| == 0 ==> r == Err(EmptyHistory)
    ensures |volumes| > 0 ==> (r.Ok? <==> volumes[0] != 0.0)
    ensures r.Ok? ==> |r.value| == |volumes| && r.value[0] == 1.0
    ensures r.Ok? ==> forall i :: 0 <= i < |volumes| ==> r.value[i] * volumes[0] == volumes[i]
  {
    if |volumes| == 0 then Err(EmptyHistory)
    else if volumes[0] == 0.0 then Err(ZeroInitialVolume)
    else Ok(seq(|volumes|, i requires 0 <= i < |volumes| => volumes[i] / volumes[0]))
  }

  function Scale(volumes: seq<real>, s: real): (r: seq<real>)
    ensures |r| == |volumes| && forall i :: 0 <= i < |volumes| ==> r[i] == s * volumes[i]
  {
    seq(|volumes|, i requires 0 <= i < |volumes| => s * volumes[i])
  }

  /** The normalised history does not depend on the unit the volumes were given in. */
  lemma NormalizeIgnoresUnits(volumes: seq<real>, s: real)
    requires s != 0.0
    ensures Normalize(Scale(volumes, s)) == Normalize(volumes)
  {
    var scaled := Scale(volumes, s);
    if |volumes| > 0 && volumes[0] != 0.0 {
      assert scaled[0] != 0.0;
      var a, b := Normalize(scaled).value, Normalize(volumes).value;
      forall i | 0 <= i < |volumes|
        ensures a[i] == b[i]
      {
        assert a[i] * (s * volumes[0]) == s * volumes[i];
        assert b[i] * volumes[0] == volumes[i];
        assert (a[i] - b[i]) * (s * volumes[0]) == 0.0;
      }
      assert a == b;
    }
  }

  /** `VolumeProfile.__init__`: normalise the volumes, then differentiate them against time. */
  function FromVolumeHistory(times: seq<real>, volumes: seq<real>): (r: Result<VelocityProfile, ProfileError>)
    ensures |volumes| == 0 ==> r == Err(EmptyHistory)
    ensures r.Ok? <==> Normalize(volumes).Ok? && FirstDerivative(times, Normalize(volumes).value).Ok?
    ensures r.Ok? ==> r.value.times == times && |r.value.velocity| == |times| >= 3
    ensures r.Ok? ==> r.value.velocity == FirstDerivative(times, Normalize(volumes).value).value
    ensures r.Ok? && StrictlyIncreasing(times) ==> r.value.Valid()
  {
    match Normalize(volumes)
    case Err(e) => Err(e)
    case Ok(normalized) =>
      match FirstDerivative(times, normalized)
      case Err(e) => Err(Derivative(e))
      case Ok(velocity) => Ok(VelocityProfile(times, velocity))
  }

  /**
   * A volume history that is a straight line in time (a constant-speed wall)
   * gives that constant speed, relative to the first volume, at every sample.
   */
  lemma ConstantSpeedHistory(times: seq<real>, volumes: seq<real>, speed: real, v0: real)
    requires |times| >= 3 && NonZeroSpacing(times) && v0 != 0.0
    requires OnLine(times, volumes, speed, v0) && times[0] == 0.0
    ensures FromVolumeHistory(times, volumes).Ok?
    ensures forall i :: 0 <= i < |times| ==> FromVolumeHistory(times, volumes).value.velocity[i] == speed / v0
  {
    var normalized := Normalize(volumes).value;
    assert OnLine(times, normalized, speed / v0, 1.0) by {
      assert volumes[0] == v0;
      forall i | 0 <= i < |times|
        ensures normalized[i] == speed / v0 * times[i] + 1.0
      {
        var expected := speed / v0 * times[i] + 1.0;
        assert normalized[i] * v0 == volumes[i] == speed * times[i] + v0;
        assert expected * v0 == speed * times[i] + v0;
        CancelFactor(normalized[i], expected, v0);
      }
    }
    DerivativeOfLine(times, normalized, speed / v0, 1.0);
  }

  lemma CancelFactor(a: real, b: real, f: real)
    requires f != 0.0 && a * f == b * f
    ensures a == b
  {
    assert (a - b) * f == 0.0;
  }

  /** `PressureRiseProfile.__init__`: the velocity is the derivative of the volumes, unnormalised. */
  function FromPressureRise(times: seq<real>, volumes: seq<real>): (r: Result<VelocityProfile, ProfileError>)
    ensures r.Ok? <==> FirstDerivative(times, volumes).Ok?
    ensures r.Ok? ==> r.value.times == times && |r.value.velocity| == |times| >= 3
    ensures r.Ok? ==> r.value.velocity == FirstDerivative(times, volumes).value
    ensures r.Ok? && StrictlyIncreasing(times) ==> r.value.Valid()
  {
    match FirstDerivative(times, volumes)
    case Err(e) => Err(Derivative(e))
    case Ok(velocity) => Ok(VelocityProfile(times, velocity))
  }

  /**
   * Number of samples of a half-open range [0, timeEnd + 1/freq) taken every
   * 1/freq seconds: sample k is taken exactly when k/freq lies below the stop.
   */
  function SampleCount(timeEnd: real, freq: real): (n: nat)
    requires freq > 0.0
    ensures (n as real) >= timeEnd * freq + 1.0
    ensures n > 0 ==> ((n - 1) as real) < timeEnd * freq + 1.0
  {
    var stop := timeEnd * freq + 1.0;
    if stop <= 0.0 then 0
    else
      var c := -((-stop).Floor);
      assert c - 1 < stop.Floor + 1;
      c
  }

  /** Sample times 0, 1/freq, 2/freq, ... up to, and not including, timeEnd + 1/freq. */
  function SampleTimes(timeEnd: real, freq: real): (times: seq<real>)
    requires freq > 0.0
    ensures |times| == SampleCount(timeEnd, freq)
    ensures forall k :: 0 <= k < |times| ==> times[k] == (k as real) / freq
    ensures StrictlyIncreasing(times)
    ensures |times| > 0 ==> times[0] == 0.0
    ensures |times| > 0 ==> timeEnd <= times[|times| - 1] < timeEnd + 1.0 / freq
  {
    var n := SampleCount(timeEnd, freq);
    var times := seq(n, k requires 0 <= k < n => (k as real) / freq);
    LastSampleBounds(timeEnd, freq);
    SampleTimesIncrease(times, freq);
    times
  }

  lemma SampleTimesIncrease(times: seq<real>, freq: real)
    requires freq > 0.0
    requires forall k :: 0 <= k < |times| ==> times[k] == (k as real) / freq
    ensures StrictlyIncreasing(times)
  {
    forall i, j | 0 <= i < j < |times|
      ensures times[i] < times[j]
    {
      assert (j as real) / freq - (i as real) / freq == ((j - i) as real) / freq;
    }
  }

  lemma LastSampleBounds(timeEnd: real, freq: real)
    requires freq > 0.0
    ensures var n := SampleCount(timeEnd, freq);
      n > 0 ==> timeEnd <= (n - 1) as real / freq < timeEnd + 1.0 / freq
  {
    var n := SampleCount(timeEnd, freq);
    if n > 0 {
      var last := (n - 1) as real;
      assert last >= timeEnd * freq;
      assert last < timeEnd * freq + 1.0;
      assert last / freq * freq == last;
      assert (timeEnd + 1.0 / freq) * freq == timeEnd * freq + 1.0;
    }
  }

  /** Uniformly spaced times have index-gradient 1/freq everywhere, edges included. */
  lemma UniformGradient(times: seq<real>, freq: real)
    requires freq > 0.0 && |times| >= 3
    requires forall k :: 0 <= k < |times| ==> times[k] == (k as real) / freq
    ensures forall i :: 0 <= i < |times| ==> GradientAt(times, i) == 1.0 / freq
  {
    var h := 1.0 / freq;
    assert forall k :: 0 <= k < |times| ==> times[k] == (k as real) * h;
    var n := |times|;
    forall i | 0 <= i < n
      ensures GradientAt(times, i) == h
    {
      if i == 0 {
        assert times[1] == h && times[2] == 2.0 * h;
      } else if i == n - 1 {
        var m := (n - 1) as real;
        assert times[n - 1] == m * h && times[n - 2] == (m - 1.0) * h && times[n - 3] == (m - 2.0) * h;
      } else {
        var m := i as real;
        assert times[i + 1] == (m + 1.0) * h && times[i - 1] == (m - 1.0) * h;
      }
    }
  }

  /**
   * Over the 20 kHz sample times the pressure-rise profile exists, and its
   * velocity is the sampling frequency times the second-order difference of
   * the volumes: a second-order derivative in time.
   */
  lemma PressureRiseVelocity(timeEnd: real, volumes: seq<real>)
    requires SampleCount(timeEnd, SamplingFrequency) >= 3 && |volumes| == SampleCount(timeEnd, SamplingFrequency)
    ensures var r := FromPressureRise(SampleTimes(timeEnd, SamplingFrequency), volumes);
      r.Ok? && forall i :: 0 <= i < |volumes| ==> r.value.velocity[i] == SamplingFrequency * GradientAt(volumes, i)
  {
    var times := SampleTimes(timeEnd, SamplingFrequency);
    UniformGradient(times, SamplingFrequency);
    var d := FirstDerivative(times, volumes).value;
    forall i | 0 <= i < |volumes|
      ensures d[i] == SamplingFrequency * GradientAt(volumes, i)
    {
      assert d[i] * (1.0 / SamplingFrequency) == GradientAt(volumes, i);
    }
  }

  /** `sample_rising_pressure`: P = P0 (A t + 1) at each time. */
  function RisingPressures(times: seq<real>, initialPressure: real, riseRate: real): (pressures: seq<real>)
    ensures |pressures| == |times|
    ensures forall i :: 0 <= i < |times| ==> pressures[i] == initialPressure * (riseRate * times[i] + 1.0)
  {
    seq(|times|, i requires 0 <= i < |times| => initialPressure * (riseRate * times[i] + 1.0))
  }

  /**
   * The law starts from the initial pressure and rises at the constant rate
   * A*P0 per second: any two samples differ by A*P0 times their time gap.
   */
  lemma PressureLaw(times: seq<real>, initialPressure: real, riseRate: real, i: nat, j: nat)
    requires i < |times| && j < |times|
    ensures times[i] == 0.0 ==> RisingPressures(times, initialPressure, riseRate)[i] == initialPressure
    ensures RisingPressures(times, initialPressure, riseRate)[i] - RisingPressures(times, initialPressure, riseRate)[j]
      == initialPressure * riseRate * (times[i] - times[j])
  {
    var p := RisingPressures(times, initialPressure, riseRate);
    assert p[i] - p[j] == initialPressure * (riseRate * times[i] + 1.0) - initialPressure * (riseRate * times[j] + 1.0);
  }

  /** volumes[i] is the ratio initialDensity / isentropicDensity(pressures[i]) at every sample. */
  predicate VolumeRatios(pressures: seq<real>, initialDensity: real, isentropicDensity: real -> real, volumes: seq<real>)
  {
    |volumes| == |pressures| &&
    forall i :: 0 <= i < |pressures| ==> volumes[i] * isentropicDensity(pressures[i]) == initialDensity
  }

  /** Some sampled pressure has a zero isentropic density. */
  predicate ZeroDensitySomewhere(pressures: seq<real>, isentropicDensity: real -> real)
  {
    exists i :: 0 <= i < |pressures| && isentropicDensity(pressures[i]) == 0.0
  }

  /** A history that starts at the initial state starts at volume ratio 1. */
  lemma VolumeRatiosStartAtOne(pressures: seq<real>, initialDensity: real, isentropicDensity: real -> real, volumes: seq<real>)
    requires VolumeRatios(pressures, initialDensity, isentropicDensity, volumes) && |pressures| > 0
    requires isentropicDensity(pressures[0]) == initialDensity != 0.0
    ensures volumes[0] == 1.0
  {
    CancelFactor(volumes[0], 1.0, initialDensity);
  }

  /**
   * `create_volume_history`: sample the rising pressure at 20 kHz up to the end
   * time and, holding the entropy at its initial value, take the volume ratio
   * initialDensity / density(P) at each sample. `isentropicDensity` is the gas
   * model's density at the initial entropy as a function of pressure.
   */
  method CreateVolumeHistory(initialPressure: real, initialDensity: real, isentropicDensity: real -> real,
                             riseRate: real, timeEnd: real)
    returns (r: Result<(seq<real>, seq<real>), ProfileError>)
    ensures var pressures := RisingPressures(SampleTimes(timeEnd, SamplingFrequency), initialPressure, riseRate);
      r.Err? <==> ZeroDensitySomewhere(pressures, isentropicDensity)
    ensures r.Err? ==> r.error == ZeroDensity
    ensures r.Ok? ==> r.value.0 == SampleTimes(timeEnd, SamplingFrequency)
    ensures r.Ok? ==> VolumeRatios(RisingPressures(r.value.0, initialPressure, riseRate), initialDensity, isentropicDensity, r.value.1)
  {
    var times := SampleTimes(timeEnd, SamplingFrequency);
    var pressures := RisingPressures(times, initialPressure, riseRate);
    var volumes := IsentropicRatios(pressures, initialDensity, isentropicDensity);
    if volumes.None? {
      return Err(ZeroDensity);
    }
    r := Ok((times, volumes.value));
  }

  /** The loop of `create_volume_history`: one volume ratio per sampled pressure, or None at a zero density. */
  method IsentropicRatios(pressures: seq<real>, initialDensity: real, isentropicDensity: real -> real)
    returns (volumes: Option<seq<real>>)
    ensures volumes.None? <==> ZeroDensitySomewhere(pressures, isentropicDensity)
    ensures volumes.Some? ==> VolumeRatios(pressures, initialDensity, isentropicDensity, volumes.value)
  {
    var ratios: seq<real> := [];
    for i := 0 to |pressures|
      invariant VolumeRatios(pressures[..i], initialDensity, isentropicDensity, ratios)
      invariant !ZeroDensitySomewhere(pressures[..i], isentropicDensity)
    {
      var density := isentropicDensity(pressures[i]);
      if density == 0.0 {
        return None;
      }
      ratios := ratios + [initialDensity / density];
      assert pressures[..i + 1] == pressures[..i] + [pressures[i]];
    }
    assert pressures[..|pressures|] == pressures;
    volumes := Some(ratios);
  }
}
