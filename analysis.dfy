/**
 * Ignition-delay analysis (`Simulation.process_results`): pick the diagnostic
 * channel of the recorded series, differentiate it when asked to (or when no
 * peak is found in a `max` search), take the dominant peak, and report the
 * delays of the peaks up to it that come after the compression time.
 */
module Analysis {
  import opened Outcomes
  import opened Interpolation
  import opened Differentiation
  import opened Species
  import opened Recording

  datatype AnalysisError =
    | BadTarget                          // the target names no column of the series
    | Derivative(cause: DerivativeError)
    | NoPeaks                            // the arg-max of an empty peak list

  /** The overall delay (0 when none is found) and the first-stage delay (`None` for NaN). */
  datatype Delays = Delays(overall: real, firstStage: Option<real>)

  /** What peak detection promises: increasing (so distinct) indices into its signal. */
  predicate ValidPeaks(peaks: seq<nat>, n: nat)
  {
    InRange(peaks, n) && Increasing(peaks)
  }

  predicate Increasing(peaks: seq<nat>)
  {
    forall a, b :: 0 <= a < b < |peaks| ==> peaks[a] < peaks[b]
  }

  /** The peak detector, a collaborator, keeps that promise on every signal. */
  ghost predicate PeakDetector(detect: seq<real> -> seq<nat>)
  {
    forall s :: ValidPeaks(detect(s), |s|)
  }

  /** The diagnostic channel named by the target. */
  function Column(table: seq<State>, target: Target): (r: Result<seq<real>, AnalysisError>)
    ensures r.Ok? ==> |r.value| == |table|
    ensures target == Named(Pressure) ==> r.Ok? && forall i :: 0 <= i < |table| ==> r.value[i] == table[i].pressure
    ensures target == Named(Temperature) ==> r.Ok? && forall i :: 0 <= i < |table| ==> r.value[i] == table[i].temperature
    ensures target.Named? && target.name != Pressure && target.name != Temperature ==> r == Err(BadTarget)
    ensures target.Index? ==> (r.Ok? <==> forall i :: 0 <= i < |table| ==> target.index < |table[i].massFractions|)
    ensures target.Index? && r.Ok? ==> forall i :: 0 <= i < |table| ==> r.value[i] == table[i].massFractions[target.index]
  {
    match target
    case Named(name) =>
      if name == Pressure then Ok(seq(|table|, i requires 0 <= i < |table| => table[i].pressure))
      else if name == Temperature then Ok(seq(|table|, i requires 0 <= i < |table| => table[i].temperature))
      else Err(BadTarget)
    case Index(k) =>
      if forall i :: 0 <= i < |table| ==> k < |table[i].massFractions| then
        Ok(seq(|table|, i requires 0 <= i < |table| => table[i].massFractions[k]))
      else Err(BadTarget)
  }

  /**
   * The signal peaks are taken from, and its peaks: the channel itself, or its
   * time derivative for a `d/dt max` search, or for a `max` search that found
   * no peak in the channel.
   */
  function DetectionSignal(time: seq<real>, column: seq<real>, ignitionType: string,
                           detect: seq<real> -> seq<nat>): (r: Result<(seq<real>, seq<nat>), AnalysisError>)
    requires PeakDetector(detect)
    ensures r.Ok? ==> r.value.1 == detect(r.value.0) && ValidPeaks(r.value.1, |r.value.0|)
    ensures ignitionType != DerivativeMax && (ignitionType != Max || |detect(column)| > 0) ==>
      r == Ok((column, detect(column)))
    ensures ignitionType == DerivativeMax ==>
      (r.Ok? <==> FirstDerivative(time, column).Ok?) &&
      (r.Ok? ==> r.value.0 == FirstDerivative(time, column).value)
    ensures ignitionType == Max && |detect(column)| == 0 ==>
      (r.Ok? <==> FirstDerivative(time, column).Ok?) &&
      (r.Ok? ==> r.value.0 == FirstDerivative(time, column).value)
  {
    var first :=
      if ignitionType == DerivativeMax then
        match FirstDerivative(time, column)
        case Err(e) => Err(Derivative(e))
        case Ok(d) => Ok(d)
      else Ok(column);
    match first
    case Err(e) => Err(e)
    case Ok(signal) =>
      var peaks := detect(signal);
      if |peaks| == 0 && ignitionType == Max then
        match FirstDerivative(time, signal)
        case Err(e) => Err(Derivative(e))
        case Ok(d) => Ok((d, detect(d)))
      else Ok((signal, peaks))
  }

  /** Position, among the peaks, of the first one with the largest signal value (numpy `argmax`). */
  function ArgMax(signal: seq<real>, peaks: seq<nat>): (k: nat)
    requires |peaks| > 0 && forall j :: 0 <= j < |peaks| ==> peaks[j] < |signal|
    ensures k < |peaks|
    ensures forall j :: 0 <= j < |peaks| ==> signal[peaks[j]] <= signal[peaks[k]]
    ensures forall j :: 0 <= j < k ==> signal[peaks[j]] < signal[peaks[k]]
  {
    if |peaks| == 1 then 0
    else
      var k := ArgMax(signal, peaks[1..]) + 1;
      if signal[peaks[0]] >= signal[peaks[k]] then 0 else k
  }

  /** Indices of xs in range of time. */
  predicate InRange(xs: seq<nat>, n: nat)
  {
    forall k :: 0 <= k < |xs| ==> xs[k] < n
  }

  function Init<T>(xs: seq<T>): seq<T>
    requires |xs| > 0
  {
    xs[..|xs| - 1]
  }

  function Last<T>(xs: seq<T>): T
    requires |xs| > 0
  {
    xs[|xs| - 1]
  }

  /** `ind[ind <= max_ind]`: the peaks at or before the dominant one, in order. */
  function AtMost(peaks: seq<nat>, maxInd: nat): (r: seq<nat>)
    ensures |r| <= |peaks|
    ensures forall k :: 0 <= k < |r| ==> r[k] <= maxInd && r[k] in peaks
  {
    if |peaks| == 0 then []
    else AtMost(Init(peaks), maxInd) + (if Last(peaks) <= maxInd then [Last(peaks)] else [])
  }

  /** `np.where(time[xs] - time_comp > 0)`: positions in xs whose delay is positive. */
  function PositivePositions(time: seq<real>, xs: seq<nat>, comp: real): (r: seq<nat>)
    requires InRange(xs, |time|)
    ensures |r| <= |xs|
    ensures forall k :: 0 <= k < |r| ==> r[k] < |xs|
  {
    if |xs| == 0 then []
    else PositivePositions(time, Init(xs), comp) + (if time[Last(xs)] - comp > 0.0 then [|xs| - 1] else [])
  }

  /** Every position `np.where` picks has a positive delay. */
  lemma {:induction false} PositivePositionsSound(time: seq<real>, xs: seq<nat>, comp: real)
    requires InRange(xs, |time|)
    ensures forall k :: 0 <= k < |PositivePositions(time, xs, comp)| ==>
      time[xs[PositivePositions(time, xs, comp)[k]]] - comp > 0.0
  {
    if |xs| > 0 {
      var init := Init(xs);
      PositivePositionsSound(time, init, comp);
      var before := PositivePositions(time, init, comp);
      var r := PositivePositions(time, xs, comp);
      assert forall k :: 0 <= k < |before| ==> xs[before[k]] == init[before[k]];
      if time[Last(xs)] - comp > 0.0 {
        assert r == before + [|xs| - 1];
        forall k | 0 <= k < |r|
          ensures time[xs[r[k]]] - comp > 0.0
        {
          if k < |before| {
            assert r[k] == before[k];
          }
        }
      } else {
        assert before + [] == before;
        assert r == before;
      }
    }
  }

  /** Every position with a positive delay is picked by `np.where`. */
  lemma {:induction false} PositivePositionsComplete(time: seq<real>, xs: seq<nat>, comp: real)
    requires InRange(xs, |time|)
    ensures forall j :: 0 <= j < |xs| && time[xs[j]] - comp > 0.0 ==> j in PositivePositions(time, xs, comp)
  {
    if |xs| > 0 {
      var init := Init(xs);
      PositivePositionsComplete(time, init, comp);
      var before := PositivePositions(time, init, comp);
      assert forall j :: 0 <= j < |init| ==> xs[j] == init[j];
      assert forall j :: j in before ==> j in PositivePositions(time, xs, comp);
    }
  }

  /** `np.where` lists its positions in increasing order. */
  lemma {:induction false} PositivePositionsIncrease(time: seq<real>, xs: seq<nat>, comp: real)
    requires InRange(xs, |time|)
    ensures forall a, b :: 0 <= a < b < |PositivePositions(time, xs, comp)| ==>
      PositivePositions(time, xs, comp)[a] < PositivePositions(time, xs, comp)[b]
  {
    if |xs| > 0 {
      var init := Init(xs);
      PositivePositionsIncrease(time, init, comp);
      var before := PositivePositions(time, init, comp);
      var r := PositivePositions(time, xs, comp);
      if time[Last(xs)] - comp > 0.0 {
        assert r == before + [|xs| - 1];
        forall a, b | 0 <= a < b < |r|
          ensures r[a] < r[b]
        {
          assert r[a] == before[a] < |init|;
          if b < |before| {
            assert r[b] == before[b];
          }
        }
      } else {
        assert before + [] == before;
        assert r == before;
      }
    }
  }

  /** `time[ind[positions]] - time_comp`: note that the positions index the unfiltered peaks. */
  function Gather(time: seq<real>, peaks: seq<nat>, positions: seq<nat>, comp: real): (r: seq<real>)
    requires InRange(peaks, |time|) && forall k :: 0 <= k < |positions| ==> positions[k] < |peaks|
    ensures |r| == |positions|
    ensures forall k :: 0 <= k < |positions| ==> r[k] == time[peaks[positions[k]]] - comp
  {
    seq(|positions|, k requires 0 <= k < |positions| => time[peaks[positions[k]]] - comp)
  }

  /** The candidate delays as the source computes them. */
  function CandidatesAsWritten(time: seq<real>, peaks: seq<nat>, maxInd: nat, comp: real): (r: seq<real>)
    requires InRange(peaks, |time|)
    ensures |r| <= |AtMost(peaks, maxInd)| <= |peaks|
  {
    var filtered := AtMost(peaks, maxInd);
    Gather(time, peaks, PositivePositions(time, filtered, comp), comp)
  }

  /** The candidate delays as intended: time[p] - comp for the peaks p <= maxInd with a positive delay, in order. */
  function Candidates(time: seq<real>, peaks: seq<nat>, maxInd: nat, comp: real): (r: seq<real>)
    requires InRange(peaks, |time|)
    ensures forall k :: 0 <= k < |r| ==> r[k] > 0.0
    ensures |r| <= |peaks|
  {
    if |peaks| == 0 then []
    else
      var p := Last(peaks);
      Candidates(time, Init(peaks), maxInd, comp) + (if p <= maxInd && time[p] - comp > 0.0 then [time[p] - comp] else [])
  }

  /** The delays of the peaks in xs that come after the compression time. */
  function PositiveDelays(time: seq<real>, xs: seq<nat>, comp: real): seq<real>
    requires InRange(xs, |time|)
  {
    if |xs| == 0 then []
    else PositiveDelays(time, Init(xs), comp) + (if time[Last(xs)] - comp > 0.0 then [time[Last(xs)] - comp] else [])
  }

  /** Over increasing peaks, the peaks at or before maxInd are a prefix of the list. */
  lemma {:induction false} AtMostIsPrefix(peaks: seq<nat>, maxInd: nat)
    requires Increasing(peaks)
    ensures |AtMost(peaks, maxInd)| <= |peaks|
    ensures AtMost(peaks, maxInd) == peaks[..|AtMost(peaks, maxInd)|]
  {
    if |peaks| > 0 {
      AtMostIsPrefix(Init(peaks), maxInd);
      if Last(peaks) <= maxInd {
        AllAtMost(Init(peaks), maxInd);
        assert Init(peaks) + [Last(peaks)] == peaks;
      }
    }
  }

  lemma {:induction false} AllAtMost(peaks: seq<nat>, maxInd: nat)
    requires forall k :: 0 <= k < |peaks| ==> peaks[k] <= maxInd
    ensures AtMost(peaks, maxInd) == peaks
  {
    if |peaks| > 0 {
      AllAtMost(Init(peaks), maxInd);
      assert Init(peaks) + [Last(peaks)] == peaks;
    }
  }

  /** Gathering one more position appends that peak's delay. */
  lemma GatherSnoc(time: seq<real>, peaks: seq<nat>, positions: seq<nat>, j: nat, comp: real)
    requires InRange(peaks, |time|) && j < |peaks|
    requires forall k :: 0 <= k < |positions| ==> positions[k] < |peaks|
    ensures Gather(time, peaks, positions + [j], comp) == Gather(time, peaks, positions, comp) + [time[peaks[j]] - comp]
  {
    var extended := positions + [j];
    assert forall k :: 0 <= k < |positions| ==> extended[k] == positions[k];
  }

  /** Positions found in a prefix of the peaks pick out the same peaks from the whole list. */
  lemma {:induction false} GatherOnPrefix(time: seq<real>, peaks: seq<nat>, xs: seq<nat>, comp: real)
    requires InRange(peaks, |time|) && |xs| <= |peaks| && xs == peaks[..|xs|]
    ensures InRange(xs, |time|)
    ensures Gather(time, peaks, PositivePositions(time, xs, comp), comp) == PositiveDelays(time, xs, comp)
  {
    assert InRange(xs, |time|);
    if |xs| > 0 {
      var init := Init(xs);
      assert init == peaks[..|init|];
      GatherOnPrefix(time, peaks, init, comp);
      var before := PositivePositions(time, init, comp);
      var p := Last(xs);
      assert p == peaks[|xs| - 1];
      if time[p] - comp > 0.0 {
        GatherSnoc(time, peaks, before, |xs| - 1, comp);
      } else {
        assert before + [] == before;
        var d := PositiveDelays(time, init, comp);
        assert d + [] == d;
      }
    }
  }

  /** One step of the positive-delay filter: appending a peak appends its delay when positive. */
  lemma PositiveDelaysSnoc(time: seq<real>, xs: seq<nat>, p: nat, comp: real)
    requires InRange(xs, |time|) && p < |time|
    ensures InRange(xs + [p], |time|)
    ensures PositiveDelays(time, xs + [p], comp) ==
      PositiveDelays(time, xs, comp) + (if time[p] - comp > 0.0 then [time[p] - comp] else [])
  {
    assert Init(xs + [p]) == xs && Last(xs + [p]) == p;
  }

  /** A peak after maxInd adds neither a filtered peak nor a candidate. */
  lemma SkipLateStep(time: seq<real>, peaks: seq<nat>, maxInd: nat, comp: real)
    requires InRange(peaks, |time|) && |peaks| > 0 && Last(peaks) > maxInd
    ensures AtMost(peaks, maxInd) == AtMost(Init(peaks), maxInd)
    ensures Candidates(time, peaks, maxInd, comp) == Candidates(time, Init(peaks), maxInd, comp)
  {
    var a := AtMost(Init(peaks), maxInd);
    assert a + [] == a;
    var c := Candidates(time, Init(peaks), maxInd, comp);
    assert c + [] == c;
  }

  /** Filtering on p <= maxInd, then on a positive delay, is filtering on both. */
  lemma {:induction false} FiltersCompose(time: seq<real>, peaks: seq<nat>, maxInd: nat, comp: real)
    requires InRange(peaks, |time|)
    ensures InRange(AtMost(peaks, maxInd), |time|)
    ensures PositiveDelays(time, AtMost(peaks, maxInd), comp) == Candidates(time, peaks, maxInd, comp)
  {
    if |peaks| > 0 {
      FiltersCompose(time, Init(peaks), maxInd, comp);
      var p := Last(peaks);
      if p <= maxInd {
        PositiveDelaysSnoc(time, AtMost(Init(peaks), maxInd), p, comp);
      } else {
        SkipLateStep(time, peaks, maxInd, comp);
      }
    }
  }

  /**
   * Since detected peaks are increasing, the source's indexing of the unfiltered
   * peak list with positions taken in the filtered one yields exactly the
   * intended candidate delays.
   */
  lemma CandidatesAsWrittenAgree(time: seq<real>, peaks: seq<nat>, maxInd: nat, comp: real)
    requires ValidPeaks(peaks, |time|)
    ensures CandidatesAsWritten(time, peaks, maxInd, comp) == Candidates(time, peaks, maxInd, comp)
  {
    AtMostIsPrefix(peaks, maxInd);
    GatherOnPrefix(time, peaks, AtMost(peaks, maxInd), comp);
    FiltersCompose(time, peaks, maxInd, comp);
  }

  /** Overall delay: the last candidate or 0; first-stage delay: the first candidate when there are two or more. */
  function SelectDelays(candidates: seq<real>): (d: Delays)
    ensures |candidates| == 0 ==> d.overall == 0.0
    ensures |candidates| > 0 ==> d.overall == candidates[|candidates| - 1]
    ensures d.firstStage.Some? <==> |candidates| >= 2
    ensures d.firstStage.Some? ==> d.firstStage.value == candidates[0]
  {
    Delays(if |candidates| > 0 then Last(candidates) else 0.0,
           if |candidates| > 1 then Some(candidates[0]) else None)
  }

  /** Dominant peak, candidate delays and the two reported delays, from the detected peaks. */
  function DelaysFromPeaks(time: seq<real>, signal: seq<real>, peaks: seq<nat>, comp: real): (r: Result<Delays, AnalysisError>)
    requires |signal| == |time| && ValidPeaks(peaks, |signal|)
    ensures r.Err? <==> |peaks| == 0
    ensures r.Ok? ==> r.value == SelectDelays(Candidates(time, peaks, peaks[ArgMax(signal, peaks)], comp))
    ensures r.Ok? ==> r.value.overall >= 0.0
    ensures r.Ok? && r.value.firstStage.Some? ==> r.value.firstStage.value > 0.0 && r.value.overall > 0.0
  {
    if |peaks| == 0 then Err(NoPeaks)
    else
      var maxInd := peaks[ArgMax(signal, peaks)];
      CandidatesAsWrittenAgree(time, peaks, maxInd, comp);
      Ok(SelectDelays(CandidatesAsWritten(time, peaks, maxInd, comp)))
  }

  /** A peak list whose members after position j all exceed maxInd adds no candidate beyond its prefix. */
  lemma {:induction false} CandidatesIgnoreLater(time: seq<real>, peaks: seq<nat>, maxInd: nat, comp: real, j: nat)
    requires InRange(peaks, |time|) && j <= |peaks|
    requires forall k :: j <= k < |peaks| ==> peaks[k] > maxInd
    ensures Candidates(time, peaks, maxInd, comp) == Candidates(time, peaks[..j], maxInd, comp)
  {
    if |peaks| > j {
      CandidatesIgnoreLater(time, Init(peaks), maxInd, comp, j);
      assert Init(peaks)[..j] == peaks[..j];
    } else {
      assert peaks[..j] == peaks;
    }
  }

  /** When a peak's own delay is positive, it is the last candidate delay of the peaks up to it. */
  lemma LastCandidateIsOwn(time: seq<real>, peaks: seq<nat>, k: nat, comp: real)
    requires ValidPeaks(peaks, |time|) && k < |peaks| && time[peaks[k]] - comp > 0.0
    ensures |Candidates(time, peaks, peaks[k], comp)| > 0
    ensures Last(Candidates(time, peaks, peaks[k], comp)) == time[peaks[k]] - comp
  {
    var maxInd := peaks[k];
    CandidatesIgnoreLater(time, peaks, maxInd, comp, k + 1);
    var prefix := peaks[..k + 1];
    assert Last(prefix) == maxInd && Init(prefix) == peaks[..k];
  }

  /**
   * The overall delay is the dominant peak's own delay whenever that delay is
   * positive.
   */
  lemma DominantPeakGivesOverall(time: seq<real>, signal: seq<real>, peaks: seq<nat>, comp: real)
    requires |signal| == |time| && ValidPeaks(peaks, |signal|) && |peaks| > 0
    ensures var maxInd := peaks[ArgMax(signal, peaks)];
      time[maxInd] - comp > 0.0 ==> DelaysFromPeaks(time, signal, peaks, comp).value.overall == time[maxInd] - comp
  {
    var k := ArgMax(signal, peaks);
    var maxInd := peaks[k];
    if time[maxInd] - comp > 0.0 {
      CandidatesAsWrittenAgree(time, peaks, maxInd, comp);
      LastCandidateIsOwn(time, peaks, k, comp);
    }
  }

  /** Candidate delays never exceed the delay of the latest peak considered. */
  lemma {:induction false} CandidatesBounded(time: seq<real>, peaks: seq<nat>, maxInd: nat, comp: real, bound: real)
    requires InRange(peaks, |time|)
    requires forall k :: 0 <= k < |peaks| ==> time[peaks[k]] - comp <= bound
    ensures forall k :: 0 <= k < |Candidates(time, peaks, maxInd, comp)| ==> Candidates(time, peaks, maxInd, comp)[k] <= bound
  {
    if |peaks| > 0 {
      CandidatesBounded(time, Init(peaks), maxInd, comp, bound);
    }
  }

  /** Over strictly increasing times, candidate delays strictly increase. */
  lemma {:induction false} CandidatesIncrease(time: seq<real>, peaks: seq<nat>, maxInd: nat, comp: real)
    requires StrictlyIncreasing(time) && ValidPeaks(peaks, |time|)
    ensures StrictlyIncreasing(Candidates(time, peaks, maxInd, comp))
  {
    if |peaks| > 1 {
      var init := Init(peaks);
      CandidatesIncrease(time, init, maxInd, comp);
      var p := Last(peaks);
      CandidatesBounded(time, init, maxInd, comp, time[Last(init)] - comp);
      assert time[Last(init)] < time[p];
    }
  }

  /** The series is analysed on its own time column with the compression time as the zero of delay. */
  function ProcessResults(table: seq<State>, target: Target, ignitionType: string, compressionTime: Option<real>,
                          detect: seq<real> -> seq<nat>): (r: Result<Delays, AnalysisError>)
    requires PeakDetector(detect)
    ensures var signal := if Column(table, target).Ok?
                          then DetectionSignal(Times(table), Column(table, target).value, ignitionType, detect)
                          else Err(BadTarget);
      && (r.Ok? <==> signal.Ok? && |signal.value.1| > 0)
      && (r.Ok? ==> r == DelaysFromPeaks(Times(table), signal.value.0, signal.value.1,
                                          if compressionTime.Some? then compressionTime.value else 0.0))
    ensures r.Ok? ==> r.value.overall >= 0.0
    ensures r.Ok? && r.value.firstStage.Some? ==> r.value.firstStage.value > 0.0
  {
    var comp := if compressionTime.Some? then compressionTime.value else 0.0;
    var time := Times(table);
    match Column(table, target)
    case Err(e) => Err(e)
    case Ok(column) =>
      match DetectionSignal(time, column, ignitionType, detect)
      case Err(e) => Err(e)
      case Ok((signal, peaks)) => DelaysFromPeaks(time, signal, peaks, comp)
  }

  /** Over strictly increasing times, a reported first-stage delay comes before the overall delay. */
  lemma FirstStageBeforeOverallFromPeaks(time: seq<real>, signal: seq<real>, peaks: seq<nat>, comp: real)
    requires StrictlyIncreasing(time) && |signal| == |time| && ValidPeaks(peaks, |signal|)
    requires DelaysFromPeaks(time, signal, peaks, comp).Ok?
    ensures var d := DelaysFromPeaks(time, signal, peaks, comp).value;
      d.firstStage.Some? ==> d.firstStage.value < d.overall
  {
    var maxInd := peaks[ArgMax(signal, peaks)];
    CandidatesAsWrittenAgree(time, peaks, maxInd, comp);
    CandidatesIncrease(time, peaks, maxInd, comp);
  }

  /**
   * Over a series recorded at strictly increasing times, a reported
   * first-stage delay comes strictly before the overall delay.
   */
  lemma FirstStageBeforeOverall(table: seq<State>, target: Target, ignitionType: string, compressionTime: Option<real>,
                                detect: seq<real> -> seq<nat>)
    requires PeakDetector(detect) && StrictlyIncreasing(Times(table))
    requires ProcessResults(table, target, ignitionType, compressionTime, detect).Ok?
    ensures var d := ProcessResults(table, target, ignitionType, compressionTime, detect).value;
      d.firstStage.Some? ==> d.firstStage.value < d.overall
  {
    var comp := if compressionTime.Some? then compressionTime.value else 0.0;
    var time := Times(table);
    var signal := DetectionSignal(time, Column(table, target).value, ignitionType, detect).value;
    FirstStageBeforeOverallFromPeaks(time, signal.0, signal.1, comp);
  }
}
