/**
 * Case set-up (`Simulation.setup_case`): the end time, the wall driving the
 * reactor volume, the integrator's largest step and the ignition target.
 * The gas model is a collaborator seen only through its species list, its
 * initial density and its density at the initial entropy as a function of
 * pressure.
 */
module Setup {
  import opened Outcomes
  import opened Interpolation
  import opened Profiles
  import opened Species

  const ShockTube: string := "ST"
  const RapidCompressionMachine: string := "RCM"

  /** The end time is this many declared ignition delays. */
  const EndTimeFactor: real := 100.0

  /** The case properties set-up reads, in SI units; absent keys are `None`. */
  datatype Properties = Properties(
    ignitionDelay: real,
    pressure: real,
    pressureRise: Option<real>,
    time: Option<seq<real>>,
    volume: Option<seq<real>>,
    compressionTime: Option<real>)

  /** The gas model at the case's initial state. */
  datatype Gas = Gas(species: seq<string>, density: real, isentropicDensity: real -> real)

  /** Which wall the reactor gets. */
  datatype WallChoice = NoWallChoice | ZeroVelocity | PressureRiseHistory | VolumeHistory

  /** The wall as configured: none, a fixed wall, or one moving with a velocity profile. */
  datatype Wall = NoWall | Fixed | Moving(profile: VelocityProfile)

  /**
   * The wall decision on the experiment kind and on which properties are
   * present: shock tubes move their wall only with a pressure rise, rapid
   * compression machines only with a volume history, other kinds get none.
   */
  function ChooseWall(kind: string, hasPressureRise: bool, hasVolume: bool): (c: WallChoice)
    ensures c == ZeroVelocity <==> (kind == ShockTube && !hasPressureRise) || (kind == RapidCompressionMachine && !hasVolume)
    ensures c == PressureRiseHistory <==> kind == ShockTube && hasPressureRise
    ensures c == VolumeHistory <==> kind == RapidCompressionMachine && hasVolume
    ensures c == NoWallChoice <==> kind != ShockTube && kind != RapidCompressionMachine
  {
    if kind == ShockTube && !hasPressureRise then ZeroVelocity
    else if kind == ShockTube && hasPressureRise then PressureRiseHistory
    else if kind == RapidCompressionMachine && !hasVolume then ZeroVelocity
    else if kind == RapidCompressionMachine && hasVolume then VolumeHistory
    else NoWallChoice
  }

  /** The smallest gap between consecutive times: the largest step the integrator may take. */
  function MinGap(times: seq<real>): (g: real)
    requires |times| >= 2
    ensures forall i :: 0 <= i < |times| - 1 ==> g <= times[i + 1] - times[i]
    ensures exists i :: 0 <= i < |times| - 1 && g == times[i + 1] - times[i]
  {
    var first := times[1] - times[0];
    if |times| == 2 then first
    else
      var rest := MinGap(times[1..]);
      if first <= rest then first else rest
  }

  /** Over strictly increasing times the largest step is positive. */
  lemma MinGapPositive(times: seq<real>)
    requires |times| >= 2 && StrictlyIncreasing(times)
    ensures MinGap(times) > 0.0
  {
    var i :| 0 <= i < |times| - 1 && MinGap(times) == times[i + 1] - times[i];
  }

  /** The volumes of an isentropic compression along the sampled pressures. */
  predicate IsentropicVolumes(gas: Gas, initialPressure: real, riseRate: real, times: seq<real>, volumes: seq<real>)
  {
    VolumeRatios(RisingPressures(times, initialPressure, riseRate), gas.density, gas.isentropicDensity, volumes)
  }

  /** The wall w is the one the decision table asks for, built from this case's data. */
  ghost predicate WallFits(kind: string, properties: Properties, gas: Gas, timeEnd: real, w: Wall)
  {
    var choice := ChooseWall(kind, properties.pressureRise.Some?, properties.volume.Some?);
    && (choice == NoWallChoice ==> w == NoWall)
    && (choice == ZeroVelocity ==> w == Fixed)
    && (choice == VolumeHistory ==>
          && properties.time.Some? && w.Moving?
          && FromVolumeHistory(properties.time.value, properties.volume.value) == Ok(w.profile))
    && (choice == PressureRiseHistory ==>
          var times := SampleTimes(timeEnd, SamplingFrequency);
          && w.Moving? && w.profile.times == times
          && exists volumes :: IsentropicVolumes(gas, properties.pressure, properties.pressureRise.value, times, volumes) &&
               FromPressureRise(times, volumes) == Ok(w.profile))
  }

  /**
   * The wall the table asks for can be built: a fixed wall or none always can;
   * a pressure-rise profile needs at least three samples and a nonzero
   * isentropic density at every sampled pressure; a volume profile needs the
   * time column and a volume history that normalises and differentiates.
   */
  predicate WallBuildable(kind: string, properties: Properties, gas: Gas, timeEnd: real)
  {
    match ChooseWall(kind, properties.pressureRise.Some?, properties.volume.Some?)
    case NoWallChoice => true
    case ZeroVelocity => true
    case PressureRiseHistory =>
      && SampleCount(timeEnd, SamplingFrequency) >= 3
      && !ZeroDensitySomewhere(
           RisingPressures(SampleTimes(timeEnd, SamplingFrequency), properties.pressure, properties.pressureRise.value),
           gas.isentropicDensity)
    case VolumeHistory =>
      properties.time.Some? && FromVolumeHistory(properties.time.value, properties.volume.value).Ok?
  }

  /**
   * Build the wall the decision table asks for: a fixed wall, none, or a
   * moving wall whose velocity profile comes from the pressure-rise law or
   * from the supplied volume history.
   */
  method ConfigureWall(kind: string, properties: Properties, gas: Gas, timeEnd: real) returns (r: Result<Wall, SetupError>)
    ensures r.Ok? ==> WallFits(kind, properties, gas, timeEnd, r.value)
    ensures r.Ok? <==> WallBuildable(kind, properties, gas, timeEnd)
    ensures var choice := ChooseWall(kind, properties.pressureRise.Some?, properties.volume.Some?);
      && (choice == NoWallChoice || choice == ZeroVelocity ==> r.Ok?)
      && (choice == VolumeHistory && properties.time.None? ==> r == Err(MissingTimeHistory))
      && (choice == VolumeHistory && properties.time.Some? ==>
            (r.Ok? <==> FromVolumeHistory(properties.time.value, properties.volume.value).Ok?))
    ensures r.Err? ==> r.error == MissingTimeHistory || r.error == WallProfile
  {
    match ChooseWall(kind, properties.pressureRise.Some?, properties.volume.Some?) {
      case NoWallChoice =>
        r := Ok(NoWall);
      case ZeroVelocity =>
        r := Ok(Fixed);
      case PressureRiseHistory =>
        var history := CreateVolumeHistory(properties.pressure, gas.density, gas.isentropicDensity,
                                           properties.pressureRise.value, timeEnd);
        if history.Err? {
          return Err(WallProfile);
        }
        var (times, volumes) := history.value;
        if |times| >= 3 {
          UniformGradient(times, SamplingFrequency);
        }
        var profile := FromPressureRise(times, volumes);
        if profile.Err? {
          return Err(WallProfile);
        }
        assert IsentropicVolumes(gas, properties.pressure, properties.pressureRise.value, times, volumes);
        r := Ok(Moving(profile.value));
      case VolumeHistory =>
        if properties.time.None? {
          return Err(MissingTimeHistory);
        }
        var profile := FromVolumeHistory(properties.time.value, properties.volume.value);
        if profile.Err? {
          return Err(WallProfile);
        }
        r := Ok(Moving(profile.value));
    }
  }

  class Simulation {
    const kind: string
    const properties: Properties
    var ignitionTarget: Target
    var ignitionType: string
    var timeEnd: real
    var wall: Wall
    var maxTimeStep: Option<real>

    constructor (kind: string, properties: Properties, ignitionTarget: string, ignitionType: string)
      ensures this.kind == kind && this.properties == properties
      ensures this.ignitionTarget == Named(ignitionTarget) && this.ignitionType == ignitionType
      ensures wall == NoWall && maxTimeStep == None
    {
      this.kind := kind;
      this.properties := properties;
      this.ignitionTarget := Named(ignitionTarget);
      this.ignitionType := ignitionType;
      timeEnd := 0.0;
      wall := NoWall;
      maxTimeStep := None;
    }

    /**
     * Configure the case: end time, wall, largest step and the resolved
     * ignition target, in that order. On a failure the fields are left as
     * they were.
     */
    method SetupCase(gas: Gas) returns (status: Outcome<SetupError>)
      requires ignitionTarget.Named?
      modifies this
      ensures status.Fail? ==> unchanged(this)
      ensures status.Pass? <==>
        && WallBuildable(kind, properties, gas, EndTimeFactor * properties.ignitionDelay)
        && (properties.time.Some? ==> |properties.time.value| >= 2)
        && old(ignitionTarget).name != ""
      ensures status.Pass? ==> timeEnd == EndTimeFactor * properties.ignitionDelay
      ensures status.Pass? ==> WallFits(kind, properties, gas, timeEnd, wall)
      ensures status.Pass? ==> properties.time.None? ==> maxTimeStep == None
      ensures status.Pass? ==> properties.time.Some? ==>
        |properties.time.value| >= 2 && maxTimeStep == Some(MinGap(properties.time.value))
      ensures status.Pass? ==>
        ResolveTarget(old(ignitionTarget).name, old(ignitionType), gas.species) == Ok((ignitionTarget, ignitionType))
      ensures old(ignitionTarget).name == "" ==> status.Fail?
      ensures properties.time.Some? && |properties.time.value| < 2 ==> status.Fail?
    {
      var end := EndTimeFactor * properties.ignitionDelay;
      var newWall := ConfigureWall(kind, properties, gas, end);
      if newWall.Err? {
        return Fail(newWall.error);
      }

      var step: Option<real> := None;
      if properties.time.Some? {
        if |properties.time.value| < 2 {
          return Fail(ShortTimeHistory);
        }
        step := Some(MinGap(properties.time.value));
      }

      var resolved := LookUpTarget(ignitionTarget.name, ignitionType, gas.species);
      if resolved.Err? {
        return Fail(resolved.error);
      }

      timeEnd, wall, maxTimeStep := end, newWall.value, step;
      ignitionTarget, ignitionType := resolved.value.0, resolved.value.1;
      status := Pass;
    }
  }
}
