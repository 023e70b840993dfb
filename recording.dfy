/**
 * The recording loop of `Simulation.run_case`. The reactor network is seen as
 * its initial state and the finite sequence of states its successive steps
 * towards the end time stop at. Every state reached at or before the end time
 * is recorded verbatim; a step that overshoots the end time is replaced by a
 * row interpolated linearly, channel by channel, back to exactly the end time,
 * and recording stops.
 */
module Recording {
  import opened Outcomes
  import opened Interpolation

  /** A reactor state, which is also one row of the recorded time series. */
  datatype State = State(time: real, temperature: real, pressure: real, volume: real, massFractions: seq<real>)

  datatype RunError =
    | StepperExhausted   // the stepper stopped short of the end time: an integrator failure
    | UnboundPrevious    // the very first step overshot, before any previous step was saved

  /** Every state carries one mass fraction per species of the mechanism. */
  predicate UniformSpecies(initial: State, steps: seq<State>)
  {
    forall j :: 0 <= j < |steps| ==> |steps[j].massFractions| == |initial.massFractions|
  }

  /** The stepper moves forward: each step ends later than the state before it. */
  predicate Advancing(initial: State, steps: seq<State>)
  {
    (|steps| > 0 ==> initial.time < steps[0].time) &&
    forall j :: 0 < j < |steps| ==> steps[j - 1].time < steps[j].time
  }

  /** The position of the first step that reaches the end time, if any does. */
  function FirstReaching(steps: seq<State>, timeEnd: real): (r: Option<nat>)
    ensures r.Some? ==> r.value < |steps| && steps[r.value].time >= timeEnd
    ensures r.Some? ==> forall j :: 0 <= j < r.value ==> steps[j].time < timeEnd
    ensures r.None? ==> forall j :: 0 <= j < |steps| ==> steps[j].time < timeEnd
  {
    if |steps| == 0 then None
    else if steps[0].time >= timeEnd then Some(0)
    else match FirstReaching(steps[1..], timeEnd)
      case None => None
      case Some(k) => Some(k + 1)
  }

  /** The first step reaching the end time is the one after all the steps that fall short of it. */
  lemma {:induction false} FirstReachingAt(steps: seq<State>, timeEnd: real, k: nat)
    requires k < |steps| && steps[k].time >= timeEnd
    requires forall j :: 0 <= j < k ==> steps[j].time < timeEnd
    ensures FirstReaching(steps, timeEnd) == Some(k)
  {
    if k > 0 {
      FirstReachingAt(steps[1..], timeEnd, k - 1);
    }
  }

  /** numpy `interp(t, [t0, t1], [a, b])` for a t strictly between t0 and t1. */
  function Between(t: real, t0: real, t1: real, a: real, b: real): real
    requires t0 < t < t1
  {
    Interp(t, [t0, t1], [a, b], a, b)
  }

  /** The row interpolated to time t between the saved previous state and the overshooting one. */
  function InterpolateTo(prev: State, next: State, t: real): (row: State)
    requires prev.time < t < next.time && |prev.massFractions| == |next.massFractions|
    ensures row.time == t && |row.massFractions| == |next.massFractions|
  {
    State(t,
          Between(t, prev.time, next.time, prev.temperature, next.temperature),
          Between(t, prev.time, next.time, prev.pressure, next.pressure),
          Between(t, prev.time, next.time, prev.volume, next.volume),
          seq(|next.massFractions|, i requires 0 <= i < |next.massFractions| =>
                Between(t, prev.time, next.time, prev.massFractions[i], next.massFractions[i])))
  }

  /**
   * The time series the loop records: the initial state, then every step up to
   * the first one that reaches the end time, that one verbatim if it lands on
   * the end time and interpolated back to it if it overshoots.
   */
  function Recorded(initial: State, steps: seq<State>, timeEnd: real): (r: Result<seq<State>, RunError>)
    requires UniformSpecies(initial, steps)
    ensures initial.time >= timeEnd ==> r == Ok([initial])
    ensures r == Err(StepperExhausted) <==>
      initial.time < timeEnd && forall j :: 0 <= j < |steps| ==> steps[j].time < timeEnd
    ensures r.Ok? ==> |r.value| >= 1 && r.value[0] == initial
    ensures r.Ok? && initial.time < timeEnd ==> r.value[|r.value| - 1].time == timeEnd
    ensures r.Ok? ==> forall j :: 0 <= j < |r.value| ==> |r.value[j].massFractions| == |initial.massFractions|
  {
    if initial.time >= timeEnd then Ok([initial])
    else match FirstReaching(steps, timeEnd)
      case None => Err(StepperExhausted)
      case Some(m) =>
        if steps[m].time <= timeEnd then Ok([initial] + steps[..m + 1])
        else if m == 0 then Err(UnboundPrevious)
        else Ok([initial] + steps[..m] + [InterpolateTo(steps[m - 1], steps[m], timeEnd)])
  }

  /**
   * Run the case: record the initial state, then step until the network time
   * reaches the end time, saving the previous state for the final interpolation.
   */
  method RunCase(initial: State, steps: seq<State>, timeEnd: real) returns (r: Result<seq<State>, RunError>)
    requires UniformSpecies(initial, steps)
    ensures r == Recorded(initial, steps, timeEnd)
  {
    var rows := [initial];
    var current := initial;
    var prev: Option<State> := None;
    var i := 0;
    while current.time < timeEnd
      invariant 0 <= i <= |steps|
      invariant current == if i == 0 then initial else steps[i - 1]
      invariant prev == if i == 0 then None else Some(steps[i - 1])
      invariant current.time < timeEnd ==> initial.time < timeEnd
      invariant current.time < timeEnd ==> rows == [initial] + steps[..i]
      invariant current.time < timeEnd ==> forall j :: 0 <= j < i ==> steps[j].time < timeEnd
      invariant current.time >= timeEnd ==> Recorded(initial, steps, timeEnd) == Ok(rows)
      decreases |steps| - i
    {
      if i == |steps| {
        return Err(StepperExhausted);
      }
      current := steps[i];
      i := i + 1;
      if current.time > timeEnd {
        if prev.None? {
          return Err(UnboundPrevious);
        }
        var p := prev.value;
        var fractions: seq<real> := [];
        for k := 0 to |current.massFractions|
          invariant |fractions| == k
          invariant forall l :: 0 <= l < k ==>
            fractions[l] == Between(timeEnd, p.time, current.time, p.massFractions[l], current.massFractions[l])
        {
          fractions := fractions + [Between(timeEnd, p.time, current.time, p.massFractions[k], current.massFractions[k])];
        }
        rows := rows + [State(timeEnd,
                              Between(timeEnd, p.time, current.time, p.temperature, current.temperature),
                              Between(timeEnd, p.time, current.time, p.pressure, current.pressure),
                              Between(timeEnd, p.time, current.time, p.volume, current.volume),
                              fractions)];
        assert fractions == InterpolateTo(p, current, timeEnd).massFractions;
        assert rows == [initial] + steps[..i - 1] + [InterpolateTo(p, current, timeEnd)];
        FirstReachingAt(steps, timeEnd, i - 1);
      } else {
        rows := rows + [current];
        assert steps[..i] == steps[..i - 1] + [current];
        assert rows == [initial] + steps[..i];
        if current.time >= timeEnd {
          FirstReachingAt(steps, timeEnd, i - 1);
        }
      }
      prev := Some(current);
    }
    r := Ok(rows);
  }

  function Times(rows: seq<State>): (ts: seq<real>)
    ensures |ts| == |rows| && forall j :: 0 <= j < |rows| ==> ts[j] == rows[j].time
  {
    seq(|rows|, j requires 0 <= j < |rows| => rows[j].time)
  }

  /**
   * The series opens with the initial state, and every later row whose step
   * ended at or before the end time is that step's state verbatim.
   */
  lemma RecordedVerbatim(initial: State, steps: seq<State>, timeEnd: real)
    requires UniformSpecies(initial, steps) && Recorded(initial, steps, timeEnd).Ok?
    ensures var rows := Recorded(initial, steps, timeEnd).value;
      && rows[0] == initial
      && |rows| <= |steps| + 1
      && forall j :: 1 <= j < |rows| ==> (steps[j - 1].time <= timeEnd ==> rows[j] == steps[j - 1])
  {
    var rows := Recorded(initial, steps, timeEnd).value;
    if initial.time < timeEnd {
      var m := FirstReaching(steps, timeEnd).value;
      forall j | 1 <= j < |rows| && steps[j - 1].time <= timeEnd
        ensures rows[j] == steps[j - 1]
      {
        if j - 1 == m {
          assert steps[m].time <= timeEnd;
        }
      }
    }
  }

  /**
   * With a stepper that moves forward, the recorded times strictly increase,
   * no row after the first lies beyond the end time, and when recording started
   * before the end time the last row sits exactly on it.
   */
  lemma RecordedTimes(initial: State, steps: seq<State>, timeEnd: real)
    requires UniformSpecies(initial, steps) && Advancing(initial, steps)
    requires Recorded(initial, steps, timeEnd).Ok?
    ensures var rows := Recorded(initial, steps, timeEnd).value;
      && StrictlyIncreasing(Times(rows))
      && (forall j :: 1 <= j < |rows| ==> rows[j].time <= timeEnd)
      && (initial.time < timeEnd ==> rows[|rows| - 1].time == timeEnd)
  {
    var rows := Recorded(initial, steps, timeEnd).value;
    var ts := Times(rows);
    if initial.time < timeEnd {
      var m := FirstReaching(steps, timeEnd).value;
      // Every row is the initial state or a step up to m, except that the last may be pulled back to timeEnd.
      assert forall j :: 1 <= j < |rows| - 1 ==> rows[j] == steps[j - 1];
      forall a, b | 0 <= a < b < |rows|
        ensures ts[a] < ts[b]
      {
        StepsIncrease(initial, steps, a, b - 1);
        if b == |rows| - 1 && a >= 1 {
          assert steps[a - 1].time < timeEnd;
        }
      }
    }
  }

  /** Times along an advancing stepper increase, starting from the initial state (a == 0). */
  lemma {:induction false} StepsIncrease(initial: State, steps: seq<State>, a: nat, k: nat)
    requires Advancing(initial, steps) && a <= k < |steps|
    ensures (if a == 0 then initial.time else steps[a - 1].time) < steps[k].time
    decreases k
  {
    if k > a {
      StepsIncrease(initial, steps, a, k - 1);
    }
  }

  /** v is the straight-line value at t between (t0, a) and (t1, b), so it lies between a and b. */
  predicate OnChord(t0: real, a: real, t1: real, b: real, t: real, v: real)
    requires t0 < t1
  {
    v == Lerp(t0, a, t1, b, t) && (a <= b ==> a <= v <= b) && (b <= a ==> b <= v <= a)
  }

  lemma BetweenOnChord(t: real, t0: real, t1: real, a: real, b: real)
    requires t0 < t < t1
    ensures OnChord(t0, a, t1, b, t, Between(t, t0, t1, a, b))
  {
    InterpPair(t0, a, t1, b, t);
    LerpBetween(t0, a, t1, b, t);
  }

  /**
   * When the step that reaches the end time overshoots it, the last row has
   * time exactly timeEnd, and its temperature, pressure, volume and each mass
   * fraction lie on the chord between the previous step and the overshooting
   * one, hence between their two values. If that step is the very first one,
   * there is no previous step and the run fails.
   */
  lemma OvershootRow(initial: State, steps: seq<State>, timeEnd: real)
    requires UniformSpecies(initial, steps) && initial.time < timeEnd
    requires FirstReaching(steps, timeEnd).Some?
    requires steps[FirstReaching(steps, timeEnd).value].time > timeEnd
    ensures var m := FirstReaching(steps, timeEnd).value;
      m == 0 <==> Recorded(initial, steps, timeEnd) == Err(UnboundPrevious)
    ensures var m := FirstReaching(steps, timeEnd).value;
      m > 0 ==>
        var rows := Recorded(initial, steps, timeEnd).value;
        var last, prev, next := rows[|rows| - 1], steps[m - 1], steps[m];
        && |rows| == m + 2
        && last.time == timeEnd
        && OnChord(prev.time, prev.temperature, next.time, next.temperature, timeEnd, last.temperature)
        && OnChord(prev.time, prev.pressure, next.time, next.pressure, timeEnd, last.pressure)
        && OnChord(prev.time, prev.volume, next.time, next.volume, timeEnd, last.volume)
        && |last.massFractions| == |next.massFractions|
        && forall i :: 0 <= i < |next.massFractions| ==>
             OnChord(prev.time, prev.massFractions[i], next.time, next.massFractions[i], timeEnd, last.massFractions[i])
  {
    var m := FirstReaching(steps, timeEnd).value;
    if m > 0 {
      var prev, next := steps[m - 1], steps[m];
      var last := InterpolateTo(prev, next, timeEnd);
      BetweenOnChord(timeEnd, prev.time, next.time, prev.temperature, next.temperature);
      BetweenOnChord(timeEnd, prev.time, next.time, prev.pressure, next.pressure);
      BetweenOnChord(timeEnd, prev.time, next.time, prev.volume, next.volume);
      forall i | 0 <= i < |next.massFractions|
        ensures OnChord(prev.time, prev.massFractions[i], next.time, next.massFractions[i], timeEnd, last.massFractions[i])
      {
        BetweenOnChord(timeEnd, prev.time, next.time, prev.massFractions[i], next.massFractions[i]);
      }
    }
  }
}
